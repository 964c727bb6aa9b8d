/** The round-robin allocator of processor cores to network functions. */
module CoreMask {
  import opened Options

  // ----- 64-bit words, as the positions of their ones -----

  type Word = w: set<nat> | forall b :: b in w ==> b < 64

  const ZERO: Word := {}
  const ONE: Word := {0}

  /** Shifting left loses the highest bit. */
  function ShiftLeft(w: Word): Word {
    set b | b in w && b < 63 :: b + 1
  }

  function And(a: Word, b: Word): Word {
    a * b
  }

  function Or(a: Word, b: Word): Word {
    a + b
  }

  // ----- the cores of a mask -----

  /** `cores` are the ones of `word` as words of a single bit, each once, in ascending order; `bits` are
      their positions. */
  ghost predicate CoresOf(cores: seq<Word>, bits: seq<nat>, word: Word) {
    && |bits| == |cores| && (forall i :: 0 <= i < |cores| ==> cores[i] == {bits[i]})
    && (forall i, j :: 0 <= i < j < |bits| ==> bits[i] < bits[j])
    && (forall b :: b in word <==> b in bits)
  }

  function Below(word: Word, i: nat): Word {
    set b | b in word && b < i
  }

  lemma CoreTested(cores: seq<Word>, bits: seq<nat>, word: Word, i: nat)
    requires i < 64 && CoresOf(cores, bits, Below(word, i))
    ensures i !in word ==> CoresOf(cores, bits, Below(word, i + 1))
    ensures i in word ==> CoresOf(cores + [{i}], bits + [i], Below(word, i + 1))
  {
    assert forall j :: 0 <= j < |bits| ==> bits[j] in bits;
    if i in word {
      forall b
        ensures b in Below(word, i + 1) <==> b in bits + [i]
      {
        assert b in bits + [i] <==> b in bits || b == i;
      }
    } else {
      assert Below(word, i) == Below(word, i + 1);
    }
  }

  /** A table with other entries from place `at` on. */
  function Entered(table: seq<Word>, at: nat, news: seq<Word>): seq<Word>
    requires at <= |table|
  {
    table[..at] + news + if at + |news| < |table| then table[at + |news|..] else []
  }

  /** `cores[at] = mask` on the map that holds the table. */
  function Put(table: seq<Word>, at: nat, mask: Word): seq<Word>
    requires at <= |table|
  {
    if at < |table| then table[at := mask] else table + [mask]
  }

  lemma PutNext(table: seq<Word>, at: nat, news: seq<Word>, mask: Word)
    requires at <= |table|
    ensures at + |news| <= |Entered(table, at, news)|
    ensures Put(Entered(table, at, news), at + |news|, mask) == Entered(table, at, news + [mask])
  {
  }

  lemma EnteredFirst(news: seq<Word>)
    ensures Entered([], 0, news) == news
  {
  }

  /** The bits below `i` are entered; `news` are their cores. */
  ghost predicate Scanned(table: seq<Word>, at: nat, cores: seq<Word>, next: nat, news: seq<Word>, bits: seq<nat>,
      word: Word, i: nat) {
    && at <= |table| && CoresOf(news, bits, Below(word, i)) && next == at + |news| && cores == Entered(table, at, news)
  }

  lemma ScannedNext(table: seq<Word>, at: nat, cores: seq<Word>, next: nat, news: seq<Word>, bits: seq<nat>, word: Word,
      i: nat)
    requires i < 64 && Scanned(table, at, cores, next, news, bits, word, i)
    ensures next <= |cores|
    ensures i !in word ==> Scanned(table, at, cores, next, news, bits, word, i + 1)
    ensures i in word ==> Scanned(table, at, Put(cores, next, {i}), next + 1, news + [{i}], bits + [i], word, i + 1)
  {
    CoreTested(news, bits, word, i);
    PutNext(table, at, news, {i});
  }

  /** In the end the table holds the cores of the mask from place `at` on. */
  ghost predicate Stored(table: seq<Word>, at: nat, cores: seq<Word>, bits: seq<nat>, word: Word) {
    at <= |table| && exists news :: CoresOf(news, bits, word) && cores == Entered(table, at, news)
  }

  lemma ScannedAll(table: seq<Word>, at: nat, cores: seq<Word>, next: nat, news: seq<Word>, bits: seq<nat>, word: Word)
    requires Scanned(table, at, cores, next, news, bits, word, 64)
    ensures Stored(table, at, cores, bits, word)
    ensures table == [] ==> CoresOf(cores, bits, word) && (word == ZERO <==> cores == [])
  {
    assert Below(word, 64) == word;
    assert bits != [] ==> bits[0] in word;
    EnteredFirst(news);
  }

  // ----- a request -----

  /** The place after `p` in a table of `n`, starting over at the end. */
  function After(p: nat, n: nat): nat {
    if p + 1 == n then 0 else p + 1
  }

  /** The place of the grant number `count`, counted from `start`. */
  function Place(start: nat, count: nat, n: nat): (p: nat)
    requires start < n
    ensures p < n
  {
    if count == 0 then start else After(Place(start, count - 1, n), n)
  }

  /** The bits of the cores granted. */
  ghost function Granted(bits: seq<nat>, start: nat, count: nat): set<nat>
    requires start < |bits|
  {
    if count == 0 then {} else Granted(bits, start, count - 1) + {bits[Place(start, count - 1, |bits|)]}
  }

  /** Less than a round brings no place up twice. */
  lemma {:induction false} PlaceInRound(start: nat, count: nat, n: nat)
    requires start < n && count <= n
    ensures Place(start, count, n) == if start + count < n then start + count else start + count - n
  {
    if count > 0 {
      PlaceInRound(start, count - 1, n);
    }
  }

  /** Within a round, the cores granted are those passed since the start. */
  lemma {:induction false} GrantedInRound(bits: seq<nat>, start: nat, count: nat, p: nat)
    requires start < |bits| && count <= |bits| && p < |bits| && forall i, j :: 0 <= i < j < |bits| ==> bits[i] < bits[j]
    ensures bits[p] in Granted(bits, start, count) <==> start <= p < start + count || p < start + count - |bits|
  {
    if count > 0 {
      GrantedInRound(bits, start, count - 1, p);
      PlaceInRound(start, count - 1, |bits|);
    }
  }

  lemma {:induction false} AllGranted(bits: seq<nat>, start: nat, count: nat, p: nat)
    requires start < |bits| <= count && p < |bits| && forall i, j :: 0 <= i < j < |bits| ==> bits[i] < bits[j]
    ensures bits[p] in Granted(bits, start, count)
  {
    if count == |bits| {
      GrantedInRound(bits, start, count, p);
    } else {
      AllGranted(bits, start, count - 1, p);
    }
  }

  /** A grant within the first round is of a new core, a later one is not. */
  lemma GrantIsNew(bits: seq<nat>, start: nat, count: nat)
    requires start < |bits| && forall i, j :: 0 <= i < j < |bits| ==> bits[i] < bits[j]
    ensures bits[Place(start, count, |bits|)] in Granted(bits, start, count) <==> count >= |bits|
  {
    var p := Place(start, count, |bits|);
    if count < |bits| {
      GrantedInRound(bits, start, count, p);
      PlaceInRound(start, count, |bits|);
    } else {
      AllGranted(bits, start, count, p);
    }
  }

  lemma GrowsByOne(s: set<nat>, b: nat)
    ensures |s + {b}| == |s| + if b in s then 0 else 1
  {
    if b in s {
      assert s + {b} == s;
    }
  }

  /** A request for `count` cores gets that many different ones, or all there are. */
  lemma {:induction false} GrantedSize(bits: seq<nat>, start: nat, count: nat)
    requires start < |bits| && forall i, j :: 0 <= i < j < |bits| ==> bits[i] < bits[j]
    ensures |Granted(bits, start, count)| == if count < |bits| then count else |bits|
  {
    if count > 0 {
      GrantedSize(bits, start, count - 1);
      GrantIsNew(bits, start, count - 1);
      GrowsByOne(Granted(bits, start, count - 1), bits[Place(start, count - 1, |bits|)]);
    }
  }

  lemma {:induction false} GrantedInWord(bits: seq<nat>, start: nat, count: nat, b: nat)
    requires start < |bits| && b in Granted(bits, start, count)
    ensures b in bits
  {
    if b != bits[Place(start, count - 1, |bits|)] {
      GrantedInWord(bits, start, count - 1, b);
    }
  }

  // ----- fairness -----

  /** How often core `i` is among the first `total` grants ever made. */
  function Grants(i: nat, total: nat, n: nat): nat
    requires 0 < n
  {
    if total == 0 then 0 else Grants(i, total - 1, n) + if Place(0, total - 1, n) == i then 1 else 0
  }

  /** How often the table has been gone through. */
  function Rounds(total: nat, n: nat): nat
    requires 0 < n
  {
    if total == 0 then 0 else Rounds(total - 1, n) + if Place(0, total, n) == 0 then 1 else 0
  }

  lemma {:induction false} GrantsByRound(i: nat, total: nat, n: nat)
    requires i < n
    ensures Grants(i, total, n) == Rounds(total, n) + if i < Place(0, total, n) then 1 else 0
  {
    if total > 0 {
      GrantsByRound(i, total - 1, n);
    }
  }

  /** After any number of grants, any two cores have been granted equally often, or one once more. */
  lemma Fair(i: nat, j: nat, total: nat, n: nat)
    requires i < n && j < n
    ensures -1 <= Grants(i, total, n) - Grants(j, total, n) <= 1
  {
    GrantsByRound(i, total, n);
    GrantsByRound(j, total, n);
  }

  /** How often core `i` is among `count` grants from a place on. */
  function Given(i: nat, start: nat, count: nat, n: nat): nat
    requires start < n
  {
    if count == 0 then 0 else Given(i, start, count - 1, n) + if Place(start, count - 1, n) == i then 1 else 0
  }

  /** How often core `i` is given out by requests for these numbers of cores, after `total` grants. */
  function GivenBy(i: nat, total: nat, counts: seq<nat>, n: nat): nat
    requires 0 < n
    decreases counts
  {
    if counts == [] then 0
    else Given(i, Place(0, total, n), counts[0], n) + GivenBy(i, total + counts[0], counts[1..], n)
  }

  function Sum(counts: seq<nat>): nat {
    if counts == [] then 0 else counts[0] + Sum(counts[1..])
  }

  lemma {:induction false} PlaceSum(start: nat, a: nat, b: nat, n: nat)
    requires start < n
    ensures Place(start, a + b, n) == Place(Place(start, a, n), b, n)
  {
    if b > 0 {
      PlaceSum(start, a, b - 1, n);
    }
  }

  lemma {:induction false} GivenAdds(i: nat, total: nat, count: nat, n: nat)
    requires 0 < n
    ensures Grants(i, total + count, n) == Grants(i, total, n) + Given(i, Place(0, total, n), count, n)
  {
    if count > 0 {
      GivenAdds(i, total, count - 1, n);
      PlaceSum(0, total, count - 1, n);
    }
  }

  /** What a sequence of requests gives out adds up. */
  lemma {:induction false} RequestsAdd(i: nat, total: nat, counts: seq<nat>, n: nat)
    requires 0 < n
    ensures Grants(i, total + Sum(counts), n) == Grants(i, total, n) + GivenBy(i, total, counts, n)
    decreases counts
  {
    if counts != [] {
      GivenAdds(i, total, counts[0], n);
      RequestsAdd(i, total + counts[0], counts[1..], n);
    }
  }

  /** Whatever requests come, in whatever sizes, any two cores have been given out equally often, or one
      once more. */
  lemma FairRequests(i: nat, j: nat, counts: seq<nat>, n: nat)
    requires i < n && j < n
    ensures -1 <= GivenBy(i, 0, counts, n) - GivenBy(j, 0, counts, n) <= 1
  {
    RequestsAdd(i, 0, counts, n);
    RequestsAdd(j, 0, counts, n);
    Fair(i, j, Sum(counts), n);
  }

  /** A request's mask holds exactly the cores it gave out. */
  lemma {:induction false} GivenIsGranted(bits: seq<nat>, start: nat, count: nat, i: nat)
    requires start < |bits| && i < |bits| && forall a, b :: 0 <= a < b < |bits| ==> bits[a] < bits[b]
    ensures Given(i, start, count, |bits|) > 0 <==> bits[i] in Granted(bits, start, count)
  {
    if count > 0 {
      GivenIsGranted(bits, start, count - 1, i);
    }
  }

  lemma AfterIsMod(p: nat, n: nat)
    requires p < n
    ensures (p + 1) % n == After(p, n)
  {
  }

  // ----- the allocator -----

  /** No request, or one for less than one core, is for none. */
  function Count(required: Option<int>): nat {
    if required.Some? && required.value > 0 then required.value else 0
  }

  class CoreAllocator {
    var cores: seq<Word>
    var nextCore: nat
    ghost var bits: seq<nat>  // the positions of the cores
    ghost var total: nat      // grants so far

    /** The next core continues the round where the last request stopped. With no core to grant, the
        table is empty or holds the zero that looking up its first place left there. */
    ghost predicate Valid(word: Word)
      reads this
    {
      if word == ZERO then (cores == [] || cores == [ZERO]) && nextCore == 0
      else CoresOf(cores, bits, word) && cores != [] && nextCore == Place(0, total, |cores|)
    }

    constructor ()
      ensures cores == [] && nextCore == 0
    {
      cores, nextCore, bits, total := [], 0, [], 0;
    }

    /** The cores are entered from the next place on; a table that is longer keeps its end. */
    method SetCoreMask(word: Word)
      requires nextCore <= |cores|
      modifies this
      ensures Stored(old(cores), old(nextCore), cores, bits, word)
      ensures nextCore == 0 && total == 0 && (old(cores) == [] ==> CoresOf(cores, bits, word) && Valid(word))
    {
      var mask := ONE;
      ghost var news: seq<Word> := [];
      bits := [];
      for i := 0 to 64
        invariant mask == if i < 64 then {i} else {}
        invariant Scanned(old(cores), old(nextCore), cores, nextCore, news, bits, word, i)
      {
        ScannedNext(old(cores), old(nextCore), cores, nextCore, news, bits, word, i);
        assert i in And(word, mask) <==> i in word;
        if And(word, mask) != ZERO {
          cores := Put(cores, nextCore, mask);
          news := news + [mask];
          bits := bits + [i];
          nextCore := nextCore + 1;
        }
        mask := ShiftLeft(mask);
      }
      ScannedAll(old(cores), old(nextCore), cores, nextCore, news, bits, word);
      nextCore, total := 0, 0;
    }

    /** One grant: a place that is not in the table yet is entered with zero. */
    method Grant(mask: Word, ghost word: Word) returns (mask': Word)
      requires Valid(word)
      modifies this`cores, this`nextCore, this`total
      ensures Valid(word)
      ensures word == ZERO ==> mask' == mask
      ensures word != ZERO ==>
        && cores == old(cores) && total == old(total) + 1 && mask' == mask + {bits[old(nextCore)]}
        && nextCore == After(old(nextCore), |cores|)
    {
      if nextCore == |cores| {
        cores := cores + [ZERO];
      }
      AfterIsMod(nextCore, |cores|);
      mask' := Or(mask, cores[nextCore]);
      nextCore := (nextCore + 1) % |cores|;
      total := total + 1;
    }

    /** Every request gets a mask of as many different cores as it asks for, or of all of them. */
    method CalculateCoreMask(required: Option<int>, ghost word: Word) returns (mask: Word)
      requires Valid(word)
      modifies this`cores, this`nextCore, this`total
      ensures Valid(word) && mask <= word
      ensures word != ZERO ==> var count := Count(required);
        && cores == old(cores) && total == old(total) + count && nextCore == Place(old(nextCore), count, |bits|)
        && mask == Granted(bits, old(nextCore), count) && |mask| == if count < |cores| then count else |cores|
      ensures required.None? || required.value <= 0 || word == ZERO ==> mask == ZERO
      ensures required.Some? && 0 <= required.value && word != ZERO ==>
        |mask| == if required.value < |cores| then required.value else |cores|
    {
      mask := ZERO;
      if required.None? {
        return;
      }
      for i := 0 to Count(required)
        invariant Valid(word)
        invariant word == ZERO ==> mask == ZERO
        invariant word != ZERO ==>
          && cores == old(cores) && total == old(total) + i && nextCore == Place(old(nextCore), i, |bits|)
          && mask == Granted(bits, old(nextCore), i)
      {
        mask := Grant(mask, word);
      }
      if word != ZERO {
        GrantedSize(bits, old(nextCore), Count(required));
        forall b | b in mask
          ensures b in word
        {
          GrantedInWord(bits, old(nextCore), Count(required), b);
        }
      }
    }
  }
}
