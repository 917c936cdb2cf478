/**
 The pipe between the server and a kernel process. The server's side, `Kernel`, keeps a
 queue of handles and has one request under way; the kernel's side, `Loop`, reads requests
 and evaluates them one at a time in a context that lasts.
 */
module KernelPipe {
  datatype Request = Put | Exec(body: string)

  /** `extra`: the client sent octets behind its request; they stay in the handle's own buffer. */
  datatype Handle = Handle(id: nat, request: Request, extra: bool)

  /** What a handle is finished with: its response as it was, a reply of the kernel, or a response of other octets. */
  datatype Response<R> = Default | Reply(value: R) | Foreign

  /** Evaluating a body in a context, a fresh context, and the reply to a restart. */
  datatype Engine<!C, !R> = Engine(blank: C, eval: (C, string) -> (C, R), restarted: R)

  /** One request against a context: the next context and the reply. */
  function Answer<C, R>(e: Engine<C, R>, c: C, q: Request): (C, R) {
    match q
    case Put => (e.blank, e.restarted)
    case Exec(body) => e.eval(c, body)
  }

  // ----- evaluating in turn -----

  function ContextAfter<C, R>(e: Engine<C, R>, hs: seq<Handle>): C {
    if hs == [] then e.blank
    else Answer(e, ContextAfter(e, hs[..|hs| - 1]), hs[|hs| - 1].request).0
  }

  /** What `h` is answered after the requests of `hs`. */
  function ReplyAfter<C, R>(e: Engine<C, R>, hs: seq<Handle>, h: Handle): R {
    Answer(e, ContextAfter(e, hs), h.request).1
  }

  // ----- the server's side -----

  /** What is under way for the front of the queue; `sent` once all octets of it are in the pipe. */
  datatype Phase = Idle | Writing(sent: bool) | Reading

  datatype Parent<R> =
    Parent(requests: seq<Handle>, phase: Phase, live: bool, killed: bool, finished: seq<(Handle, Response<R>)>)

  function Posted<R>(p: Parent<R>, h: Handle): Parent<R> {
    if !p.live then p
    else p.(requests := p.requests + [h], phase := if p.requests == [] then Writing(false) else p.phase)
  }

  /** The write's completion. After an error, or at shut-down, nothing more is under way. */
  function Written<R>(p: Parent<R>, ok: bool): Parent<R>
    requires p.phase.Writing?
  {
    p.(phase := if ok && !p.killed then Reading else Idle)
  }

  /** The read's completion; after an error the handle keeps the response that it had. */
  function Read<R>(p: Parent<R>, response: Response<R>): Parent<R>
    requires p.phase.Reading? && p.requests != []
  {
    var rest := p.requests[1..];
    p.(requests := rest,
       phase := if rest != [] && p.live then Writing(false) else Idle,
       finished := p.finished + [(p.requests[0], response)])
  }

  class Kernel<R> {
    var requests: seq<Handle>
    var phase: Phase
    var live: bool
    var killed: bool
    var finished: seq<(Handle, Response<R>)>

    function State(): Parent<R>
      reads this
    {
      Parent(requests, phase, live, killed, finished)
    }

    constructor ()
      ensures State() == Parent([], Idle, true, false, [])
    {
      requests, phase, live, killed, finished := [], Idle, true, false, [];
    }

    method Post(h: Handle)
      modifies this
      ensures State() == Posted(old(State()), h)
    {
      if live {
        requests := requests + [h];
        if |requests| == 1 {
          StartWrite();
        }
      }
    }

    method StartWrite()
      modifies this`phase
      ensures phase == Writing(false)
    {
      phase := Writing(false);
    }

    method OnWritten(ok: bool)
      requires phase.Writing?
      modifies this
      ensures State() == Written(old(State()), ok)
    {
      phase := Idle;
      if !killed && ok {
        phase := Reading;
      }
    }

    method OnRead(response: Response<R>)
      requires phase.Reading? && requests != []
      modifies this
      ensures State() == Read(old(State()), response)
    {
      phase := Idle;
      finished := finished + [(requests[0], response)];
      requests := requests[1..];
      if requests != [] && live {
        StartWrite();
      }
    }
  }

  // ----- the kernel's side -----

  datatype Child<C> = Child(jobs: seq<Request>, context: C)

  /** A request was read: its job is queued for the one thread of the pool, and reading goes on. */
  function Queued<C>(c: Child<C>, q: Request): Child<C> {
    c.(jobs := c.jobs + [q])
  }

  /** A job was run: the next state of the kernel, and the reply. */
  function Ran<C, R>(e: Engine<C, R>, c: Child<C>): (Child<C>, R)
    requires c.jobs != []
  {
    var (next, reply) := Answer(e, c.context, c.jobs[0]);
    (Child(c.jobs[1..], next), reply)
  }

  class Loop<C, R> {
    const engine: Engine<C, R>
    var jobs: seq<Request>
    var context: C

    function State(): Child<C>
      reads this
    {
      Child(jobs, context)
    }

    constructor (e: Engine<C, R>)
      ensures engine == e && State() == Child([], e.blank)
    {
      engine, jobs, context := e, [], e.blank;
    }

    method OnRequest(q: Request)
      modifies this
      ensures State() == Queued(old(State()), q)
    {
      jobs := jobs + [q];
    }

    /** The pool's thread runs a job and writes the reply. */
    method RunJob() returns (reply: R)
      requires jobs != []
      modifies this
      ensures (State(), reply) == Ran(engine, old(State()))
    {
      var q := jobs[0];
      jobs := jobs[1..];
      if q.Put? {
        context := engine.blank;
        reply := engine.restarted;
      } else {
        var (next, r) := engine.eval(context, q.body);
        context, reply := next, r;
      }
    }
  }

  // ----- both together -----

  /**
   `cout` holds the replies in the pipe of which no octet was read, and `torn` says that the rest of another one lies
   before them. `posted` lists the handles that were queued, ever, and `took` how many replies went away with the
   read of each finished handle.
   */
  datatype System<C, R> = System(parent: Parent<R>, cin: seq<Request>, child: Child<C>, cout: seq<R>, torn: bool,
                                 posted: seq<Handle>, took: seq<nat>)

  /** How a read ends: with the first reply in the pipe, with a response made of other octets, or with an error. */
  datatype Ending = Whole | Stray | Failed

  datatype Action =
    | Post(h: Handle)
    | Send            // the last octet of the request goes into the pipe
    | WriteDone(wrote: bool)
    | Receive         // the kernel reads a request
    | Run             // the kernel answers
    | ReadDone(ending: Ending, lost: nat, rest: bool)
    | Die             // the kernel process ends
    | ShutDown

  function Initial<C, R>(e: Engine<C, R>): System<C, R> {
    System(Parent([], Idle, true, false, []), [], Child([], e.blank), [], false, [], [])
  }

  /** How many replies leave the pipe with a read, whole or in part: the one it gives, and those it loses. */
  function Taken(ending: Ending, lost: nat): nat {
    lost + if ending.Whole? then 1 else 0
  }

  /**
   A read takes octets into the buffer of its handle, maybe more than it needs, and what is left there goes away with
   the handle. A response that is no reply of the kernel can come only from octets that are already in that buffer, or
   from the rest of a reply; such a `rest` stays if the last reply that was lost, or the torn one, was read in part.
   */
  predicate ReadEnds<C, R>(s: System<C, R>, ending: Ending, lost: nat, rest: bool) {
    && s.parent.phase.Reading? && s.parent.requests != []
    && Taken(ending, lost) <= |s.cout|
    && (ending.Stray? ==> s.parent.requests[0].extra || s.torn)
    && (rest ==> lost > 0 || (s.torn && !ending.Whole?))
  }

  predicate Enabled<C, R>(s: System<C, R>, a: Action) {
    match a
    case Post(_) => true
    case Send => s.parent.phase == Writing(false) && s.parent.requests != []
    case WriteDone(ok) => s.parent.phase.Writing? && (ok ==> s.parent.phase.sent)
    case Receive => s.cin != [] && s.parent.live
    case Run => s.child.jobs != [] && s.parent.live
    case ReadDone(ending, lost, rest) => ReadEnds(s, ending, lost, rest)
    case Die => true
    case ShutDown => true
  }

  function ResponseOf<C, R>(s: System<C, R>, ending: Ending): Response<R>
    requires ending.Whole? ==> s.cout != []
  {
    match ending
    case Whole => Reply(s.cout[0])
    case Stray => Foreign
    case Failed => Default
  }

  /** One step; an action that is not enabled changes nothing. */
  function Next<C, R>(e: Engine<C, R>, s: System<C, R>, a: Action): System<C, R> {
    if !Enabled(s, a) then s
    else match a
      case Post(h) =>
        s.(parent := Posted(s.parent, h), posted := if s.parent.live then s.posted + [h] else s.posted)
      case Send => s.(parent := s.parent.(phase := Writing(true)), cin := s.cin + [s.parent.requests[0].request])
      case WriteDone(ok) => s.(parent := Written(s.parent, ok))
      case Receive => s.(cin := s.cin[1..], child := Queued(s.child, s.cin[0]))
      case Run =>
        var (child, reply) := Ran(e, s.child);
        s.(child := child, cout := s.cout + [reply])
      case ReadDone(ending, lost, rest) =>
        var n := Taken(ending, lost);
        s.(parent := Read(s.parent, ResponseOf(s, ending)), cout := s.cout[n..], torn := rest, took := s.took + [n])
      case Die => s.(parent := s.parent.(live := false))
      case ShutDown => s.(parent := s.parent.(killed := true))
  }

  function Steps<C, R>(e: Engine<C, R>, s: System<C, R>, run: seq<Action>): System<C, R>
    decreases |run|
  {
    if run == [] then s else Steps(e, Next(e, s, run[0]), run[1..])
  }

  lemma {:induction false} StepsSnoc<C, R>(e: Engine<C, R>, s: System<C, R>, run: seq<Action>, a: Action)
    ensures Steps(e, s, run + [a]) == Next(e, Steps(e, s, run), a)
    decreases |run|
  {
    hide Next;
    if run == [] {
      assert [a][1..] == [];
    } else {
      assert (run + [a])[1..] == run[1..] + [a];
      StepsSnoc(e, Next(e, s, run[0]), run[1..], a);
    }
  }

  // ----- any run -----

  /** Handles are finished in the order in which they were queued, each once; the queue holds the others. */
  ghost predicate InOrder<C, R>(s: System<C, R>) {
    var n := |s.parent.finished|;
    && n <= |s.posted| && |s.took| == n
    && s.parent.requests == s.posted[n..]
    && forall k :: 0 <= k < n ==> s.parent.finished[k].0 == s.posted[k]
  }

  lemma NextInOrder<C, R>(e: Engine<C, R>, s: System<C, R>, a: Action)
    requires InOrder(s)
    ensures InOrder(Next(e, s, a)) && s.posted <= Next(e, s, a).posted
  {
    hide Answer;
  }

  lemma {:induction false} StepsInOrder<C, R>(e: Engine<C, R>, s: System<C, R>, run: seq<Action>)
    requires InOrder(s)
    ensures InOrder(Steps(e, s, run))
    decreases |run|
  {
    hide Next, InOrder;
    if run != [] {
      NextInOrder(e, s, run[0]);
      StepsInOrder(e, Next(e, s, run[0]), run[1..]);
    }
  }

  /** In any run, with whatever errors: handles that differ are each finished at most once, and in posting order. */
  lemma FinishedOnceInOrder<C, R>(e: Engine<C, R>, run: seq<Action>)
    ensures var s := Steps(e, Initial(e), run);
            && |s.parent.finished| <= |s.posted|
            && (forall k :: 0 <= k < |s.parent.finished| ==> s.parent.finished[k].0 == s.posted[k])
            && ((forall i, j :: 0 <= i < j < |s.posted| ==> s.posted[i] != s.posted[j]) ==>
                forall i, j :: 0 <= i < j < |s.parent.finished| ==> s.parent.finished[i].0 != s.parent.finished[j].0)
  {
    hide Next, Steps;
    StepsInOrder(e, Initial(e), run);
  }

  // ----- when nothing is finished any more -----

  /** Nothing is under way although handles wait. */
  predicate Stalled<C, R>(s: System<C, R>) {
    s.parent.phase == Idle && s.parent.requests != []
  }

  /** Handles wait for what is under way, if anything is. */
  predicate Busy<C, R>(s: System<C, R>) {
    s.parent.phase != Idle ==> s.parent.requests != []
  }

  /** A write that failed, or ended at shut-down, or a reply while the kernel is gone and others wait. */
  predicate Stalling<C, R>(s: System<C, R>, a: Action) {
    && Enabled(s, a)
    && ((a.WriteDone? && (!a.wrote || s.parent.killed))
        || (a.ReadDone? && !s.parent.live && |s.parent.requests| > 1))
  }

  lemma StallsExactly<C, R>(e: Engine<C, R>, s: System<C, R>, a: Action)
    requires Busy(s)
    ensures Busy(Next(e, s, a))
    ensures Stalled(Next(e, s, a)) <==> Stalled(s) || Stalling(s, a)
    ensures Stalled(s) ==> Next(e, s, a).parent.finished == s.parent.finished
  {
    hide Answer;
  }

  /** A run stalls exactly if some step of it is one of those. */
  lemma {:induction false} RunsThatStall<C, R>(e: Engine<C, R>, s: System<C, R>, run: seq<Action>)
    requires Busy(s)
    ensures Stalled(Steps(e, s, run)) <==>
              Stalled(s) || exists k :: 0 <= k < |run| && Stalling(Steps(e, s, run[..k]), run[k])
    decreases |run|
  {
    hide Next, Busy, Stalled, Stalling;
    if run != [] {
      var front, last := run[..|run| - 1], run[|run| - 1];
      assert run == front + [last];
      StepsSnoc(e, s, front, last);
      StepsBusy(e, s, front);
      RunsThatStall(e, s, front);
      StallsExactly(e, Steps(e, s, front), last);
      assert run[..|front|] == front;
      forall k | 0 <= k < |front| ensures run[..k] == front[..k] && run[k] == front[k] {
      }
    }
  }

  lemma {:induction false} StepsBusy<C, R>(e: Engine<C, R>, s: System<C, R>, run: seq<Action>)
    requires Busy(s)
    ensures Busy(Steps(e, s, run))
    decreases |run|
  {
    hide Next, Busy;
    if run != [] {
      StallsExactly(e, s, run[0]);
      StepsBusy(e, Next(e, s, run[0]), run[1..]);
    }
  }

  /** Once stalled, nothing is finished any more. */
  lemma {:induction false} StalledForGood<C, R>(e: Engine<C, R>, s: System<C, R>, run: seq<Action>)
    requires Stalled(s)
    ensures var t := Steps(e, s, run); Stalled(t) && t.parent.finished == s.parent.finished
    decreases |run|
  {
    hide Answer;
    if run != [] {
      StalledForGood(e, Next(e, s, run[0]), run[1..]);
    }
  }
}
