/** The publisher shared by two threads: callers publish while the client thread registers and flushes. */
module PubSub {
  import Traces

  /** What the client thread is doing: waiting for its registration, or publishing the queued messages
      again, of which `done` are through. */
  datatype Client = Waiting | Flushing(done: nat)

  datatype Sent<M> = Sent(message: M, queued: bool)

  /** `pending` are the messages of callers who found the client connected and have yet to send. `sent` is
      the order in which messages went out, `published` everything callers have handed over. */
  datatype State<M> = State(
    connected: bool, messages: seq<M>, client: Client,
    pending: multiset<M>, sent: seq<Sent<M>>, published: multiset<M>)

  /** The steps, each as atomic as the code makes it: the check under the mutex, the send outside it. */
  datatype Step<M> = Publish(message: M) | SendPending(message: M) | Register | FlushNext

  ghost predicate Enabled<M(!new)>(s: State<M>, step: Step<M>) {
    match step
    case Publish(_) => true
    case SendPending(m) => m in s.pending
    case Register => s.client.Waiting?
    case FlushNext => s.client.Flushing? && s.client.done < |s.messages|
  }

  ghost function Next<M(!new)>(s: State<M>, step: Step<M>): State<M>
    requires Enabled(s, step)
  {
    match step
    case Publish(m) =>
      var s' := s.(published := s.published + multiset{m});
      if !s.connected then s'.(messages := s.messages + [m]) else s'.(pending := s.pending + multiset{m})
    case SendPending(m) => s.(pending := s.pending - multiset{m}, sent := s.sent + [Sent(m, false)])
    case Register => s.(connected := true, client := Flushing(0))
    case FlushNext =>
      // the client publishes a queued message as any caller would: queued again if not connected, else sent
      var m, client := s.messages[s.client.done], Flushing(s.client.done + 1);
      if !s.connected then s.(messages := s.messages + [m], client := client)
      else s.(sent := s.sent + [Sent(m, true)], client := client)
  }

  function Messages<M>(sent: seq<Sent<M>>): seq<M> {
    if sent == [] then [] else Messages(sent[..|sent| - 1]) + [sent[|sent| - 1].message]
  }

  /** The queued messages sent, in the order they went out. */
  function Queued<M>(sent: seq<Sent<M>>): seq<M> {
    if sent == [] then []
    else
      var most, last := Queued(sent[..|sent| - 1]), sent[|sent| - 1];
      if last.queued then most + [last.message] else most
  }

  function Done(client: Client): nat {
    if client.Waiting? then 0 else client.done
  }

  /** Every message published is sent, still queued or about to be sent; queued ones go out in order. */
  ghost predicate Inv<M(!new)>(s: State<M>) {
    && (s.connected <==> s.client.Flushing?) && Done(s.client) <= |s.messages|
    && (!s.connected ==> s.pending == multiset{})
    && Queued(s.sent) == s.messages[..Done(s.client)]
    && s.published == multiset(Messages(s.sent)) + multiset(s.messages[Done(s.client)..]) + s.pending
  }

  lemma SentOne<M>(sent: seq<Sent<M>>, x: Sent<M>)
    ensures multiset(Messages(sent + [x])) == multiset(Messages(sent)) + multiset{x.message}
    ensures Queued(sent + [x]) == if x.queued then Queued(sent) + [x.message] else Queued(sent)
  {
    assert (sent + [x])[..|sent|] == sent;
  }

  lemma TakeFirst<M>(messages: seq<M>, k: nat)
    requires k < |messages|
    ensures multiset(messages[k..]) == multiset{messages[k]} + multiset(messages[k + 1..])
    ensures messages[..k + 1] == messages[..k] + [messages[k]]
  {
    assert messages[k..] == [messages[k]] + messages[k + 1..];
  }

  lemma QueueOne<M>(messages: seq<M>, k: nat, m: M)
    requires k <= |messages|
    ensures multiset((messages + [m])[k..]) == multiset(messages[k..]) + multiset{m}
    ensures (messages + [m])[..k] == messages[..k]
  {
    assert (messages + [m])[k..] == messages[k..] + [m];
  }

  lemma Moved<M>(a: multiset<M>, b: multiset<M>, p: multiset<M>, m: M)
    ensures m in p ==> (a + multiset{m}) + b + (p - multiset{m}) == a + b + p
    ensures (a + multiset{m}) + b + p == a + (multiset{m} + b) + p
    ensures a + (b + multiset{m}) + p == a + b + p + multiset{m}
    ensures a + b + (p + multiset{m}) == a + b + p + multiset{m}
  {
  }

  lemma PublishKeeps<M(!new)>(s: State<M>, m: M)
    requires Inv(s)
    ensures Inv(Next(s, Publish(m)))
  {
    var k := Done(s.client);
    Moved(multiset(Messages(s.sent)), multiset(s.messages[k..]), s.pending, m);
    if !s.connected {
      QueueOne(s.messages, k, m);
    }
  }

  lemma SendKeeps<M(!new)>(s: State<M>, m: M)
    requires Inv(s) && m in s.pending
    ensures Inv(Next(s, SendPending(m)))
  {
    Moved(multiset(Messages(s.sent)), multiset(s.messages[Done(s.client)..]), s.pending, m);
    SentOne(s.sent, Sent(m, false));
  }

  lemma FlushKeeps<M(!new)>(s: State<M>)
    requires Inv(s) && Enabled(s, FlushNext)
    ensures Inv(Next(s, FlushNext))
  {
    var k := s.client.done;
    Moved(multiset(Messages(s.sent)), multiset(s.messages[k + 1..]), s.pending, s.messages[k]);
    SentOne(s.sent, Sent(s.messages[k], true));
    TakeFirst(s.messages, k);
  }

  lemma StepKeeps<M(!new)>(s: State<M>, step: Step<M>)
    requires Inv(s) && Enabled(s, step)
    ensures Inv(Next(s, step))
    ensures s.connected ==> Next(s, step).connected && Next(s, step).messages == s.messages
  {
    match step
    case Publish(m) => PublishKeeps(s, m);
    case SendPending(m) => SendKeeps(s, m);
    case Register =>
    case FlushNext => FlushKeeps(s);
  }

  // ----- every run -----

  ghost predicate Moves<M(!new)>(s: State<M>, s': State<M>, step: Step<M>) {
    Enabled(s, step) && s' == Next(s, step)
  }

  ghost predicate Run<M(!new)>(ss: seq<State<M>>, steps: seq<Step<M>>) {
    Traces.Run(ss, steps, Moves)
  }

  ghost function Start<M(!new)>(): State<M> {
    State(false, [], Waiting, multiset{}, [], multiset{})
  }

  lemma RunKeeps<M(!new)>(ss: seq<State<M>>, steps: seq<Step<M>>, i: nat)
    requires Run(ss, steps) && ss[0] == Start<M>() && i <= |steps|
    ensures Inv(ss[i])
  {
    forall s: State<M>, s', step | Inv(s) && Moves(s, s', step)
      ensures Inv(s')
    {
      StepKeeps(s, step);
    }
    Traces.Always(ss, steps, Moves, Inv, i);
  }

  /** Once connected, the queue never changes again, whatever the threads do. */
  lemma QueueFrozen<M(!new)>(ss: seq<State<M>>, steps: seq<Step<M>>, i: nat, j: nat)
    requires Run(ss, steps) && ss[0] == Start<M>() && i <= j <= |steps| && ss[i].connected
    ensures ss[j].connected && ss[j].messages == ss[i].messages
  {
    var queue := ss[i].messages;
    RunKeeps(ss, steps, i);
    forall s, s', step | Inv(s) && s.connected && s.messages == queue && Moves(s, s', step)
      ensures Inv(s') && s'.connected && s'.messages == queue
    {
      StepKeeps(s, step);
    }
    Traces.From(ss, steps, Moves, i);
    Traces.Always(ss[i..], steps[i..], Moves, (s: State<M>) => Inv(s) && s.connected && s.messages == queue, j - i);
  }

  /** The messages callers handed over, in order. */
  function Published<M>(steps: seq<Step<M>>): seq<M> {
    if steps == [] then []
    else
      var most, last := Published(steps[..|steps| - 1]), steps[|steps| - 1];
      if last.Publish? then most + [last.message] else most
  }

  /** The messages callers sent themselves, in order. */
  function SentDirectly<M>(steps: seq<Step<M>>): seq<M> {
    if steps == [] then []
    else
      var most, last := SentDirectly(steps[..|steps| - 1]), steps[|steps| - 1];
      if last.SendPending? then most + [last.message] else most
  }

  /** How often the client sent the next queued message. */
  function Flushes<M>(steps: seq<Step<M>>): nat {
    if steps == [] then 0 else Flushes(steps[..|steps| - 1]) + if steps[|steps| - 1].FlushNext? then 1 else 0
  }

  /** What went out that was not queued, in order. */
  function Direct<M>(sent: seq<Sent<M>>): seq<M> {
    if sent == [] then []
    else
      var most, last := Direct(sent[..|sent| - 1]), sent[|sent| - 1];
      if last.queued then most else most + [last.message]
  }

  /** What the state says has been published is what the callers have handed over; the client counts as
      connected once it has registered; until then all is queued, in order. What callers and client send is
      what goes out. */
  ghost predicate Recorded<M(!new)>(s: State<M>, steps: seq<Step<M>>) {
    && s.published == multiset(Published(steps)) && (s.connected <==> Register in steps)
    && (!s.connected ==> s.messages == Published(steps) && s.sent == [])
    && Direct(s.sent) == SentDirectly(steps) && Done(s.client) == Flushes(steps)
  }

  lemma OneMore<M>(steps: seq<Step<M>>, step: Step<M>)
    ensures Published(steps + [step]) == if step.Publish? then Published(steps) + [step.message] else Published(steps)
    ensures SentDirectly(steps + [step]) ==
      if step.SendPending? then SentDirectly(steps) + [step.message] else SentDirectly(steps)
    ensures Flushes(steps + [step]) == Flushes(steps) + if step.FlushNext? then 1 else 0
    ensures Register in steps + [step] <==> Register in steps || step == Register
  {
    assert (steps + [step])[..|steps|] == steps;
  }

  lemma DirectOne<M>(sent: seq<Sent<M>>, x: Sent<M>)
    ensures Direct(sent + [x]) == if x.queued then Direct(sent) else Direct(sent) + [x.message]
  {
    assert (sent + [x])[..|sent|] == sent;
  }

  lemma StepRecorded<M(!new)>(s: State<M>, s': State<M>, step: Step<M>, steps: seq<Step<M>>)
    requires Inv(s) && Recorded(s, steps) && Moves(s, s', step)
    ensures Recorded(s', steps + [step])
  {
    OneMore(steps, step);
    match step
    case Publish(_) =>
    case SendPending(m) => DirectOne(s.sent, Sent(m, false));
    case Register =>
    case FlushNext => DirectOne(s.sent, Sent(s.messages[s.client.done], true));
  }

  lemma {:induction false} RunRecorded<M(!new)>(ss: seq<State<M>>, steps: seq<Step<M>>, i: nat)
    requires Run(ss, steps) && ss[0] == Start<M>() && i <= |steps|
    ensures Recorded(ss[i], steps[..i])
  {
    if i > 0 {
      assert steps[..i] == steps[..i - 1] + [steps[i - 1]];
      RunRecorded(ss, steps, i - 1);
      RunKeeps(ss, steps, i - 1);
      Traces.StepOf(ss, steps, Moves, i - 1);
      StepRecorded(ss[i - 1], ss[i], steps[i - 1], steps[..i - 1]);
    }
  }

  /** No lost publication: when the flush is through and no caller is between check and send, everything
      published has been sent exactly once, the queued messages in the order they were published. */
  lemma NothingLost<M(!new)>(ss: seq<State<M>>, steps: seq<Step<M>>, i: nat)
    requires Run(ss, steps) && ss[0] == Start<M>() && i <= |steps|
    requires ss[i].client.Flushing? && ss[i].client.done == |ss[i].messages|
    ensures Queued(ss[i].sent) == ss[i].messages
    ensures multiset(Published(steps[..i])) == multiset(Messages(ss[i].sent)) + ss[i].pending
    ensures ss[i].pending == multiset{} ==> multiset(Published(steps[..i])) == multiset(Messages(ss[i].sent))
  {
    RunKeeps(ss, steps, i);
    RunRecorded(ss, steps, i);
    assert ss[i].messages[..|ss[i].messages|] == ss[i].messages && ss[i].messages[|ss[i].messages|..] == [];
  }
}
