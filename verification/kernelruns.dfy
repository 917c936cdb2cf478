/** Runs of the pipe to a kernel in which nothing fails, and runs in which something does. */
module KernelRuns {
  import opened KernelPipe
  import opened KernelReplies

  // ----- runs without errors -----

  /** The reply in the pipe, and nothing else, is read. */
  const ANSWERED := ReadDone(Whole, 0, false)

  /** No error, and no client that sends octets behind its request. */
  predicate Orderly(a: Action) {
    Clean(a) && (a.Post? ==> !a.h.extra)
  }

  predicate Clean(a: Action) {
    match a
    case WriteDone(ok) => ok
    case ReadDone(ending, _, _) => !ending.Failed?
    case Die => false
    case ShutDown => false
    case _ => true
  }

  /** The three places where the request under way can be. */
  ghost predicate UnderWay<C, R>(e: Engine<C, R>, s: System<C, R>, before: seq<Handle>, h: Handle) {
    || (s.cin == [h.request] && s.child == Child([], ContextAfter(e, before)) && s.cout == [])
    || (s.cin == [] && s.child == Child([h.request], ContextAfter(e, before)) && s.cout == [])
    || (s.cin == [] && s.child == Child([], ContextAfter(e, before + [h])) && s.cout == [ReplyAfter(e, before, h)])
  }

  /** Each handle finished was given the reply to its own request. */
  ghost predicate OwnReplies<C, R>(e: Engine<C, R>, s: System<C, R>) {
    var n := |s.parent.finished|;
    && n <= |s.posted|
    && forall k :: 0 <= k < n ==> s.parent.finished[k].1 == Reply(ReplyAfter(e, s.posted[..k], s.posted[k]))
  }

  lemma OwnRepliesSnoc<C, R>(e: Engine<C, R>, s: System<C, R>, t: System<C, R>)
    requires OwnReplies(e, s) && t.posted == s.posted && |s.parent.finished| < |s.posted|
    requires var n := |s.parent.finished|;
             t.parent.finished == s.parent.finished + [(s.posted[n], Reply(ReplyAfter(e, s.posted[..n], s.posted[n])))]
    ensures OwnReplies(e, t)
  {
    hide ReplyAfter;
    forall k | 0 <= k < |t.parent.finished|
      ensures t.parent.finished[k].1 == Reply(ReplyAfter(e, s.posted[..k], s.posted[k]))
    {
      assert k < |s.parent.finished| ==> t.parent.finished[k] == s.parent.finished[k];
    }
  }

  ghost predicate Serial<C, R>(e: Engine<C, R>, s: System<C, R>) {
    var n := |s.parent.finished|;
    && InOrder(s) && s.parent.live && !s.parent.killed
    && !s.torn && (forall h :: h in s.posted ==> !h.extra)
    && (s.parent.phase == Idle <==> s.parent.requests == [])
    && OwnReplies(e, s)
    && if s.parent.phase == Idle || s.parent.phase == Writing(false)
       then s.cin == [] && s.child == Child([], ContextAfter(e, s.posted[..n])) && s.cout == []
       else UnderWay(e, s, s.posted[..n], s.posted[n])
  }

  lemma OwnRepliesPost<C, R>(e: Engine<C, R>, s: System<C, R>, t: System<C, R>, h: Handle)
    requires OwnReplies(e, s) && t.posted == s.posted + [h] && t.parent.finished == s.parent.finished
    ensures OwnReplies(e, t)
  {
    hide ReplyAfter;
    forall k | 0 <= k < |s.parent.finished| ensures t.posted[..k] == s.posted[..k] && t.posted[k] == s.posted[k] {
    }
  }

  lemma PostSerial<C, R>(e: Engine<C, R>, s: System<C, R>, h: Handle)
    requires Serial(e, s) && !h.extra
    ensures Serial(e, Next(e, s, Post(h)))
  {
    NextInOrder(e, s, Post(h));
    hide Answer, ContextAfter, ReplyAfter;
    var n := |s.parent.finished|;
    assert (s.posted + [h])[..n] == s.posted[..n];
    if s.parent.live {
      OwnRepliesPost(e, s, Next(e, s, Post(h)), h);
    }
    hide OwnReplies;
  }

  lemma RunSerial<C, R>(e: Engine<C, R>, s: System<C, R>)
    requires Serial(e, s)
    ensures Serial(e, Next(e, s, Run))
  {
    NextInOrder<C, R>(e, s, Run);
    hide Answer, ContextAfter;
    var n := |s.parent.finished|;
    if n < |s.posted| {
      ContextSnoc(e, s.posted[..n], s.posted[n]);
    }
  }

  /** Only one reply can be there to be read, and there are no octets but its own. */
  lemma ReadsWhole<C, R>(e: Engine<C, R>, s: System<C, R>, a: Action)
    requires Serial(e, s) && a.ReadDone? && Clean(a) && Enabled(s, a)
    ensures a == ANSWERED
  {
    hide Answer, ContextAfter, ReplyAfter, OwnReplies;
    assert s.parent.requests[0] in s.posted;
  }

  lemma ReadSerial<C, R>(e: Engine<C, R>, s: System<C, R>)
    requires Serial(e, s)
    ensures Serial(e, Next(e, s, ANSWERED))
  {
    NextInOrder<C, R>(e, s, ANSWERED);
    hide Answer, ContextAfter, ReplyAfter, InOrder, Read, OwnReplies;
    if Enabled(s, ANSWERED) {
      var n := |s.parent.finished|;
      ReadResult(e, s);
      assert s.posted[..n + 1] == s.posted[..n] + [s.posted[n]];
      OwnRepliesSnoc(e, s, Next(e, s, ANSWERED));
      hide Next, Enabled, UnderWay;
    }
  }

  /** The state after a reply, in full. */
  lemma ReadResult<C, R>(e: Engine<C, R>, s: System<C, R>)
    requires Serial(e, s) && Enabled(s, ANSWERED)
    ensures var n := |s.parent.finished|;
            && n < |s.posted|
            && Next(e, s, ANSWERED) ==
                 System(Parent(s.posted[n + 1..], if n + 1 < |s.posted| then Writing(false) else Idle, true, false,
                               s.parent.finished + [(s.posted[n], Reply(ReplyAfter(e, s.posted[..n], s.posted[n])))]),
                        [], Child([], ContextAfter(e, s.posted[..n] + [s.posted[n]])), [], false, s.posted,
                        s.took + [1])
  {
    hide Answer, ContextAfter, ReplyAfter;
  }

  lemma NextSerial<C, R>(e: Engine<C, R>, s: System<C, R>, a: Action)
    requires Serial(e, s) && Orderly(a)
    ensures Serial(e, Next(e, s, a))
  {
    match a
    case Post(h) => PostSerial(e, s, h);
    case Run => RunSerial(e, s);
    case ReadDone(_, _, _) =>
      if Enabled(s, a) {
        ReadsWhole(e, s, a);
        ReadSerial(e, s);
      }
    case _ =>
      NextInOrder(e, s, a);
      hide Answer, ContextAfter, ReplyAfter;
  }

  lemma {:induction false} StepsSerial<C, R>(e: Engine<C, R>, s: System<C, R>, run: seq<Action>)
    requires Serial(e, s) && forall a :: a in run ==> Orderly(a)
    ensures Serial(e, Steps(e, s, run))
    decreases |run|
  {
    hide Next, Serial, Orderly;
    if run != [] {
      NextSerial(e, s, run[0]);
      StepsSerial(e, Next(e, s, run[0]), run[1..]);
    }
  }

  lemma InitialSerial<C, R>(e: Engine<C, R>)
    ensures Serial(e, Initial(e))
  {
  }

  /**
   Without errors, and if no client sends octets behind its request, the pipe is sequential evaluation: at most one
   request is under way, and reply `k` is what evaluating the requests queued before it, then it, gives.
   */
  lemma SequentialEvaluation<C, R>(e: Engine<C, R>, run: seq<Action>)
    requires forall a :: a in run ==> Orderly(a)
    ensures var s := Steps(e, Initial(e), run);
            && |s.cin| + |s.child.jobs| + |s.cout| <= 1
            && |s.parent.finished| <= |s.posted|
            && s.parent.requests == s.posted[|s.parent.finished|..]
            && forall k :: 0 <= k < |s.parent.finished| ==>
                 s.parent.finished[k] == (s.posted[k], Reply(ReplyAfter(e, s.posted[..k], s.posted[k])))
  {
    hide Next, Steps, Orderly, ReplyAfter, ContextAfter;
    InitialSerial(e);
    StepsSerial(e, Initial(e), run);
  }

  /** What came before a restart has no effect on what comes after it. */
  lemma {:induction false} PutForgets<C, R>(e: Engine<C, R>, hs: seq<Handle>, j: nat)
    requires j < |hs| && hs[j].request == Put
    ensures ContextAfter(e, hs) == ContextAfter(e, hs[j + 1..])
    decreases |hs|
  {
    if j + 1 < |hs| {
      PutForgets(e, hs[..|hs| - 1], j);
      assert hs[..|hs| - 1][j + 1..] == hs[j + 1..][..|hs| - j - 2];
    }
  }

  /** The context after bodies are evaluated one by one, from `c` on. */
  function Evaluated<C, R>(e: Engine<C, R>, c: C, bodies: seq<string>): C
    decreases |bodies|
  {
    if bodies == [] then c else Evaluated(e, e.eval(c, bodies[0]).0, bodies[1..])
  }

  lemma {:induction false} EvaluatedSnoc<C, R>(e: Engine<C, R>, c: C, bodies: seq<string>, last: string)
    ensures Evaluated(e, c, bodies + [last]) == e.eval(Evaluated(e, c, bodies), last).0
    decreases |bodies|
  {
    if bodies == [] {
      assert [last][1..] == [];
    } else {
      assert (bodies + [last])[1..] == bodies[1..] + [last];
      EvaluatedSnoc(e, e.eval(c, bodies[0]).0, bodies[1..], last);
    }
  }

  /** Handles that none of asks for a restart, and what they ask for. */
  predicate Asks(hs: seq<Handle>, bodies: seq<string>) {
    |hs| == |bodies| && forall k :: 0 <= k < |hs| ==> hs[k].request == Exec(bodies[k])
  }

  lemma {:induction false} ContextOfBodies<C, R>(e: Engine<C, R>, hs: seq<Handle>, bodies: seq<string>)
    requires Asks(hs, bodies)
    ensures ContextAfter(e, hs) == Evaluated(e, e.blank, bodies)
    decreases |hs|
  {
    if hs != [] {
      var n := |hs| - 1;
      ContextOfBodies(e, hs[..n], bodies[..n]);
      EvaluatedSnoc(e, e.blank, bodies[..n], bodies[n]);
      assert bodies == bodies[..n] + [bodies[n]];
    }
  }

  /** The restart that counts for what follows, if there was one: place `j` is the first behind it. */
  predicate Since(hs: seq<Handle>, j: nat, bodies: seq<string>) {
    j <= |hs| && (j > 0 ==> hs[j - 1].request == Put) && Asks(hs[j..], bodies)
  }

  lemma ContextSince<C, R>(e: Engine<C, R>, hs: seq<Handle>, j: nat, bodies: seq<string>)
    requires Since(hs, j, bodies)
    ensures ContextAfter(e, hs) == Evaluated(e, e.blank, bodies)
  {
    if j > 0 {
      PutForgets(e, hs, j - 1);
    } else {
      assert hs[0..] == hs;
    }
    hide Evaluated, Answer;
    ContextOfBodies(e, hs[j..], bodies);
  }

  /**
   Without errors a kernel is one session: a restart is answered as such, and any other request is evaluated in the
   context that the requests since the last restart, or since the beginning, leave when they are evaluated in turn.
   */
  lemma OneSession<C, R>(e: Engine<C, R>, run: seq<Action>, k: nat, j: nat, bodies: seq<string>)
    requires forall a :: a in run ==> Orderly(a)
    requires var s := Steps(e, Initial(e), run);
             k < |s.parent.finished| && k < |s.posted| && Since(s.posted[..k], j, bodies)
    ensures var s := Steps(e, Initial(e), run);
            match s.posted[k].request
            case Put => s.parent.finished[k] == (s.posted[k], Reply(e.restarted))
            case Exec(body) =>
              s.parent.finished[k] == (s.posted[k], Reply(e.eval(Evaluated(e, e.blank, bodies), body).1))
  {
    SequentialEvaluation(e, run);
    hide Steps, Orderly;
    var s := Steps(e, Initial(e), run);
    ContextSince(e, s.posted[..k], j, bodies);
    hide Evaluated, ContextAfter, Since;
  }

  // ----- progress -----

  /** The steps that the server and the kernel take of themselves. */
  predicate Internal(a: Action) {
    a == Send || a == WriteDone(true) || a == Receive || a == Run || a == ANSWERED
  }

  /** While a handle waits, something can be done. */
  lemma NoDeadlock<C, R>(e: Engine<C, R>, s: System<C, R>)
    requires Serial(e, s)
    ensures s.parent.requests != [] <==> exists a :: Internal(a) && Enabled(s, a)
  {
    hide ReplyAfter, ContextAfter, InOrder;
    if s.parent.requests != [] {
      assert Internal(Send) && Internal(WriteDone(true)) && Internal(Receive) && Internal(Run) && Internal(ANSWERED);
      assert Enabled(s, Send) || Enabled(s, WriteDone(true)) || Enabled(s, Receive) || Enabled(s, Run)
          || Enabled(s, ANSWERED);
    }
  }

  /** What is left to do: five steps for a handle that waits. */
  function Work<C, R>(s: System<C, R>): int {
    5 * |s.parent.requests|
    - (if s.parent.phase == Writing(true) then 1 else if s.parent.phase == Reading then 2 else 0)
    - |s.child.jobs| - 2 * |s.cout|
  }

  lemma WorkShrinks<C, R>(e: Engine<C, R>, s: System<C, R>, a: Action)
    requires Serial(e, s) && Internal(a) && Enabled(s, a)
    ensures 0 <= Work(Next(e, s, a)) < Work(s) && Next(e, s, a).posted == s.posted
  {
    NextSerial(e, s, a);
    hide ReplyAfter, ContextAfter, Answer, InOrder;
  }

  /** However the internal steps are ordered, they come to an end, and then every queued handle is answered. */
  lemma {:induction false} Drained<C, R>(e: Engine<C, R>, s: System<C, R>, run: seq<Action>)
    requires Serial(e, s) && AllEnabled(e, s, run)
    ensures |run| <= Work(s)
    ensures var t := Steps(e, s, run);
            && t.posted == s.posted
            && ((forall a :: Internal(a) ==> !Enabled(t, a)) ==> |t.parent.finished| == |s.posted|)
    decreases |run|
  {
    hide Next, Serial, Enabled, Internal, Work;
    if run == [] {
      WorkLeft(e, s);
      NoDeadlock(e, s);
      QueueLeft(e, s);
    } else {
      WorkShrinks(e, s, run[0]);
      InternalIsOrderly(run[0]);
      NextSerial(e, s, run[0]);
      Drained(e, Next(e, s, run[0]), run[1..]);
    }
  }

  predicate AllEnabled<C, R>(e: Engine<C, R>, s: System<C, R>, run: seq<Action>)
    decreases |run|
  {
    run == [] || (Internal(run[0]) && Enabled(s, run[0]) && AllEnabled(e, Next(e, s, run[0]), run[1..]))
  }

  lemma InternalIsOrderly(a: Action)
    requires Internal(a)
    ensures Orderly(a)
  {
  }

  lemma WorkLeft<C, R>(e: Engine<C, R>, s: System<C, R>)
    requires Serial(e, s)
    ensures Work(s) >= 0
  {
    hide ReplyAfter, ContextAfter, InOrder;
  }

  lemma QueueLeft<C, R>(e: Engine<C, R>, s: System<C, R>)
    requires Serial(e, s)
    ensures s.parent.requests == [] ==> |s.parent.finished| == |s.posted|
  {
    hide ReplyAfter, ContextAfter;
  }

  // ----- reads that fail, and reads of other octets -----

  lemma StepsNone<C, R>(e: Engine<C, R>, s: System<C, R>)
    ensures Steps(e, s, []) == s
  {
  }

  lemma Step<C, R>(e: Engine<C, R>, s: System<C, R>, run: seq<Action>, t: System<C, R>, a: Action)
      returns (longer: seq<Action>, u: System<C, R>)
    requires Steps(e, s, run) == t
    ensures longer == run + [a] && u == Next(e, t, a) && Steps(e, s, longer) == u
  {
    StepsSnoc(e, s, run, a);
    longer, u := run + [a], Next(e, t, a);
  }

  /** The front handle's request is written, read by the kernel and answered, and the server waits for the reply. */
  lemma Turn<C, R>(e: Engine<C, R>, s: System<C, R>, run: seq<Action>, t: System<C, R>)
      returns (longer: seq<Action>, u: System<C, R>)
    requires Steps(e, s, run) == t && t.parent.phase == Writing(false) && t.parent.requests != []
    requires t.parent.live && !t.parent.killed && t.cin == [] && t.child.jobs == []
    ensures longer == run + [Send, WriteDone(true), Receive, Run] && Steps(e, s, longer) == u
    ensures var (next, reply) := Answer(e, t.child.context, t.parent.requests[0].request);
            u == t.(parent := t.parent.(phase := Reading), child := Child([], next), cout := t.cout + [reply])
  {
    hide Steps, Answer;
    longer, u := Step(e, s, run, t, Send);
    longer, u := Step(e, s, longer, u, WriteDone(true));
    longer, u := Step(e, s, longer, u, Receive);
    longer, u := Step(e, s, longer, u, Run);
    assert longer == run + [Send, WriteDone(true), Receive, Run];
  }

  /** Two handles are queued, and the first one is answered. */
  lemma TwoQueued<C, R>(e: Engine<C, R>, a: Handle, b: Handle) returns (run: seq<Action>, t: System<C, R>)
    ensures run == [Post(a), Post(b), Send, WriteDone(true), Receive, Run]
    ensures t == Steps(e, Initial(e), run)
    ensures t == System(Parent([a, b], Reading, true, false, []), [], Child([], ContextAfter(e, [a])),
                        [ReplyAfter(e, [], a)], false, [a, b], [])
  {
    hide Steps, Answer;
    var s := Initial(e);
    StepsNone(e, s);
    run, t := Step(e, s, [], s, Post(a));
    run, t := Step(e, s, run, t, Post(b));
    run, t := Turn(e, s, run, t);
    ContextSnoc(e, [], a);
    assert [] + [a] == [a];
  }

  /**
   One read that fails while the kernel lives, and leaves the reply in the pipe, puts the replies out of step, as
   `RepliesInOrder` says: the second handle is given the reply to the first.
   */
  lemma OutOfStep<C, R>(e: Engine<C, R>, a: Handle, b: Handle) returns (run: seq<Action>)
    ensures forall x :: x in run ==> Clean(x) || x == ReadDone(Failed, 0, false)
    ensures var t := Steps(e, Initial(e), run);
            t.took == [0, 1] && t.parent.finished == [(a, Default), (b, Reply(ReplyAfter(e, [], a)))]
  {
    var t;
    run, t := TwoQueued(e, a, b);
    hide Steps, Answer, ContextAfter, ReplyAfter;
    var s := Initial(e);
    run, t := Step(e, s, run, t, ReadDone(Failed, 0, false));
    run, t := Turn(e, s, run, t);
    run, t := Step(e, s, run, t, ANSWERED);
  }

  /** If the read that fails takes the reply with it, the second handle is given its own. */
  lemma StaysInStep<C, R>(e: Engine<C, R>, a: Handle, b: Handle) returns (run: seq<Action>)
    ensures forall x :: x in run ==> Clean(x) || x == ReadDone(Failed, 1, false)
    ensures var t := Steps(e, Initial(e), run);
            t.took == [1, 1] && t.parent.finished == [(a, Default), (b, Reply(ReplyAfter(e, [a], b)))]
  {
    var t;
    run, t := TwoQueued(e, a, b);
    hide Steps, Answer, ContextAfter, ReplyAfter;
    var s := Initial(e);
    run, t := Step(e, s, run, t, ReadDone(Failed, 1, false));
    run, t := Turn(e, s, run, t);
    run, t := Step(e, s, run, t, ANSWERED);
    hide Next;
    assert ReplyAfter(e, [a], b) == Answer(e, ContextAfter(e, [a]), b.request).1 by { ReplyIs(e, [a], b); }
  }

  lemma ReplyIs<C, R>(e: Engine<C, R>, hs: seq<Handle>, h: Handle)
    ensures ReplyAfter(e, hs, h) == Answer(e, ContextAfter(e, hs), h.request).1
    ensures ContextAfter(e, hs + [h]) == Answer(e, ContextAfter(e, hs), h.request).0
  {
    ContextSnoc(e, hs, h);
  }

  /**
   The reply to the first handle is still in the pipe when the second one is read for, and both go into that handle's
   buffer: it is given the first one's, its own is lost, and the third handle is given its own.
   */
  lemma LostReply<C, R>(e: Engine<C, R>, a: Handle, b: Handle, c: Handle) returns (run: seq<Action>)
    ensures forall x :: x in run ==> Clean(x) || x == ReadDone(Failed, 0, false)
    ensures var t := Steps(e, Initial(e), run);
            && t.took == [0, 2, 1]
            && t.parent.finished ==
                 [(a, Default), (b, Reply(ReplyAfter(e, [], a))), (c, Reply(ReplyAfter(e, [a, b], c)))]
  {
    var t;
    run, t := TwoQueued(e, a, b);
    hide Steps, Answer, ContextAfter, ReplyAfter;
    var s := Initial(e);
    run, t := Step(e, s, run, t, Post(c));
    run, t := Step(e, s, run, t, ReadDone(Failed, 0, false));
    run, t := Turn(e, s, run, t);
    run, t := Step(e, s, run, t, ReadDone(Whole, 1, false));
    ReplyIs(e, [a], b);
    assert [a] + [b] == [a, b];
    run, t := Turn(e, s, run, t);
    run, t := Step(e, s, run, t, ANSWERED);
    ReplyIs(e, [a, b], c);
  }

  /**
   No error is needed if a client sends a response behind its request: it is given that one back, and the
   handle after it the reply to it.
   */
  lemma StrayResponse<C, R>(e: Engine<C, R>, a: Handle, b: Handle) returns (run: seq<Action>)
    requires a.extra
    ensures forall x :: x in run ==> Clean(x)
    ensures var t := Steps(e, Initial(e), run);
            t.took == [0, 1] && t.parent.finished == [(a, Foreign), (b, Reply(ReplyAfter(e, [], a)))]
  {
    var t;
    run, t := TwoQueued(e, a, b);
    hide Steps, Answer, ContextAfter, ReplyAfter;
    var s := Initial(e);
    run, t := Step(e, s, run, t, ReadDone(Stray, 0, false));
    run, t := Turn(e, s, run, t);
    run, t := Step(e, s, run, t, ANSWERED);
  }
}
