/** What each call of the install protocol comes back with, as long as none of its own steps fails. */
module InstallOutcome {
  import opened Bytes
  import opened Install

  /** Some key was drawn that has not the size of a key. */
  predicate WrongDrawn(run: seq<Action>) {
    exists k :: 0 <= k < |run| && run[k].Ok? && |run[k].key| != KEY_SIZE
  }

  predicate WrongFile(s: State) {
    s.path.Regular? && |s.Content(s.path.inode)| != KEY_SIZE
  }

  /**
   What a call whose steps went well can come to. `first` is what was at the final path when the run began, and `wrong`
   says that a key of the wrong size was drawn.
   */
  predicate Deserved(s: State, first: Node, wrong: bool, call: Call, r: Result) {
    if s.path.Other? then r == Failed(Invalid)
    else
      || (r.Data? && Installed(s, r.data))
      || (call.Load? && r == Failed(Missing) && !first.Regular?)
      || (call.Key? && r == Failed(Refused) && wrong)
  }

  /** The same for what it returns: a key call refuses a file that is no key. */
  predicate Outcome(s: State, first: Node, wrong: bool, call: Call, r: Result) {
    if s.path.Other? then r == Failed(Invalid)
    else match call
      case Load => (r.Data? && Installed(s, r.data)) || (r == Failed(Missing) && !first.Regular?)
      case Offer(_) => r.Data? && Installed(s, r.data)
      case Key =>
        || (r.Data? && Installed(s, r.data) && |r.data| == KEY_SIZE)
        || (r == Failed(Refused) && (wrong || WrongFile(s)))
  }

  /** Where a call can be, and what it is about to return. */
  predicate OnCourse(s: State, first: Node, wrong: bool, l: Thread) {
    && (l.call.Load? ==> !l.locked && (l.pc.Stat? || l.pc.Open? || l.pc.Reading? || l.pc.Done?))
    && (l.call.Offer? && !l.locked ==> l.pc.Begin? || l.pc.Done?)
    && (l.pc.Create? ==> s.tmp.Absent?)
    && (!l.hurt ==> !l.pc.Cleanup? && (l.pc.Done? ==> Deserved(s, first, wrong, l.call, l.pc.r)))
  }

  predicate AllOnCourse(s: State, first: Node, wrong: bool) {
    && Inv(s)
    && (s.path.Other? <==> first.Other?) && (first.Regular? ==> s.path.Regular?)
    && (forall t :: t in s.threads ==> OnCourse(s, first, wrong, s.threads[t]))
    && (forall k :: 0 <= k < |s.returned| && !s.returned[k].hurt ==>
          Outcome(s, first, wrong, s.returned[k].call, s.returned[k].result))
  }

  // ----- what stays -----

  lemma PathStays(s: State, a: Action)
    requires Inv(s)
    ensures Next(s, a).path.Other? <==> s.path.Other?
    ensures s.path.Regular? ==> Next(s, a).path == s.path && forall d :: Installed(s, d) ==> Installed(Next(s, a), d)
  {
    forall d | Installed(s, d) ensures Installed(Next(s, a), d) {
      InstalledStays(s, a, d);
    }
    if a.Ok? && a.t in s.threads {
      assert ThreadOk(s, a.t, s.threads[a.t]);
    }
  }

  /** The same file, or none before. */
  predicate Follows(s: State, u: State) {
    && (u.path.Other? <==> s.path.Other?)
    && (s.path.Regular? ==> u.path == s.path && u.Content(u.path.inode) == s.Content(s.path.inode))
  }

  lemma NextFollows(s: State, a: Action)
    requires Inv(s)
    ensures Follows(s, Next(s, a))
  {
    PathStays(s, a);
    hide Next, Inv;
    if s.path.Regular? {
      assert Installed(s, s.Content(s.path.inode));
    }
  }

  lemma DeservedStays(s: State, u: State, first: Node, wrong: bool, wrong': bool, call: Call, r: Result)
    requires Follows(s, u) && (wrong ==> wrong') && Deserved(s, first, wrong, call, r)
    ensures Deserved(u, first, wrong', call, r)
  {
  }

  lemma OutcomeStays(s: State, u: State, first: Node, wrong: bool, wrong': bool, call: Call, r: Result)
    requires Follows(s, u) && (wrong ==> wrong') && Outcome(s, first, wrong, call, r)
    ensures Outcome(u, first, wrong', call, r)
  {
  }

  /** The thread that is at the creation of the temporary is the only one that touches it. */
  lemma CreateStays(s: State, a: Action, t: nat)
    requires Inv(s) && t in s.threads && s.threads[t].pc.Create? && s.tmp.Absent?
    requires t in Next(s, a).threads && Next(s, a).threads[t] == s.threads[t]
    requires !(a.Ok? && a.t == t)
    ensures Next(s, a).tmp.Absent?
  {
    assert ThreadOk(s, t, s.threads[t]);
    if a.Ok? && a.t in s.threads {
      assert ThreadOk(s, a.t, s.threads[a.t]);
    }
  }

  // ----- a step of the thread itself -----

  lemma Delivered(s: State, u: State, t: nat, l: Thread, r: Result, key: seq<byte>, first: Node, wrong: bool)
    requires OnCourse(s, first, wrong, l) && (l.pc.Stat? || l.pc.Open? || l.pc.Reading?)
    requires u == Deliver(s, t, l, r, key) && (l.pc.Create? ==> s.tmp.Absent?)
    requires !l.hurt ==>
               if s.path.Other? then r == Failed(Invalid)
               else (r.Data? && Installed(s, r.data)) || (r == Failed(Missing) && !first.Regular?)
    requires |key| != KEY_SIZE ==> wrong || l.hurt
    requires l.hurt ==> r != Failed(Missing)
    ensures t in u.threads && OnCourse(u, first, wrong, u.threads[t])
  {
  }

  lemma ReadsOnCourse(s: State, t: nat, n: nat, key: seq<byte>, first: Node, wrong: bool)
    requires AllOnCourse(s, first, wrong) && t in s.threads
    requires (s.threads[t].pc.Stat? || s.threads[t].pc.Open? || s.threads[t].pc.Reading?) && !s.threads[t].hurt
    requires |key| != KEY_SIZE ==> wrong
    ensures var u := Succeed(s, t, n, key); t in u.threads && OnCourse(u, first, wrong, u.threads[t])
  {
    var l := s.threads[t];
    assert ThreadOk(s, t, l) && OnCourse(s, first, wrong, l);
    match l.pc
    case Stat =>
      if s.path.Absent? {
        Delivered(s, Deliver(s, t, l, Failed(Missing), key), t, l, Failed(Missing), key, first, wrong);
      } else if s.path.Other? {
        Delivered(s, Deliver(s, t, l, Failed(Invalid), key), t, l, Failed(Invalid), key, first, wrong);
      }
    case Open =>
    case Reading(i, got) =>
      if |got| >= |s.Content(i)| {
        Delivered(s, Deliver(s, t, l, Data(got), key), t, l, Data(got), key, first, wrong);
      }
    case _ =>
  }

  /** A hurt call is about to end. */
  predicate Ending(s: State) {
    forall t :: t in s.threads && s.threads[t].hurt ==> s.threads[t].pc.Cleanup? || s.threads[t].pc.Done?
  }

  lemma OwnOnCourse(s: State, t: nat, n: nat, key: seq<byte>, first: Node, wrong: bool)
    requires AllOnCourse(s, first, wrong) && Ending(s) && t in s.threads && (|key| != KEY_SIZE ==> wrong)
    ensures var u := Succeed(s, t, n, key); t in u.threads ==> OnCourse(u, first, wrong, u.threads[t])
  {
    var l := s.threads[t];
    assert ThreadOk(s, t, l) && OnCourse(s, first, wrong, l);
    if l.pc.Stat? || l.pc.Open? || l.pc.Reading? {
      ReadsOnCourse(s, t, n, key, first, wrong);
    }
  }

  lemma FailOnCourse(s: State, t: nat, first: Node, wrong: bool)
    requires AllOnCourse(s, first, wrong) && t in s.threads
    ensures var u := FailStep(s, t); t in u.threads && OnCourse(u, first, wrong, u.threads[t])
  {
    var l := s.threads[t];
    assert OnCourse(s, first, wrong, l);
  }

  lemma SucceedHurt(s: State, t: nat, n: nat, key: seq<byte>, x: nat)
    requires t in s.threads && x in Succeed(s, t, n, key).threads
    ensures var u := Succeed(s, t, n, key);
            && x in s.threads && u.threads[x].hurt == s.threads[x].hurt
            && (x != t ==> u.threads[x] == s.threads[x])
            && (s.threads[x].pc.Cleanup? || s.threads[x].pc.Done? ==> u.threads[x].pc.Cleanup? || u.threads[x].pc.Done?)
  {
  }

  lemma FailHurt(s: State, t: nat, x: nat)
    requires t in s.threads && x in FailStep(s, t).threads
    ensures var u := FailStep(s, t);
            && x in s.threads && (x != t ==> u.threads[x] == s.threads[x])
            && (u.threads[t] == s.threads[t] || u.threads[t].pc.Cleanup? || u.threads[t].pc.Done?)
  {
  }

  lemma EndingOne(s: State, a: Action, t: nat)
    requires t in Next(s, a).threads && Next(s, a).threads[t].hurt
    requires t in s.threads && s.threads[t].hurt ==> s.threads[t].pc.Cleanup? || s.threads[t].pc.Done?
    ensures Next(s, a).threads[t].pc.Cleanup? || Next(s, a).threads[t].pc.Done?
  {
    hide Succeed, FailStep;
    if a.Ok? && a.t in s.threads {
      SucceedHurt(s, a.t, a.n, a.key, t);
    } else if a.Fail? && a.t in s.threads {
      FailHurt(s, a.t, t);
    }
  }

  lemma EndingNext(s: State, a: Action)
    requires Inv(s) && Ending(s)
    ensures Ending(Next(s, a))
  {
    hide Inv, Next;
    forall t | t in Next(s, a).threads && Next(s, a).threads[t].hurt
      ensures Next(s, a).threads[t].pc.Cleanup? || Next(s, a).threads[t].pc.Done?
    {
      EndingOne(s, a, t);
    }
  }

  // ----- a step of the whole -----

  /** A call that begins, and one that is unwound. */
  lemma BegunOrThrown(s: State, a: Action, first: Node, wrong: bool)
    requires AllOnCourse(s, first, wrong) && (a.Start? || a.Throw?)
    requires a.t in Next(s, a).threads && (a.t in s.threads ==> Next(s, a).threads[a.t] != s.threads[a.t])
    ensures OnCourse(Next(s, a), first, wrong, Next(s, a).threads[a.t])
  {
    if a.t in s.threads {
      assert OnCourse(s, first, wrong, s.threads[a.t]);
    }
    hide Inv, Deserved;
  }

  lemma ThreadNext(s: State, a: Action, t: nat, first: Node, wrong: bool, wrong': bool)
    requires AllOnCourse(s, first, wrong) && Ending(s) && t in Next(s, a).threads
    requires wrong' == (wrong || (a.Ok? && |a.key| != KEY_SIZE))
    ensures OnCourse(Next(s, a), first, wrong', Next(s, a).threads[t])
  {
    hide AllOnCourse, OnCourse, Ending, Succeed, FailStep;
    if a.Ok? && a.t == t && t in s.threads {
      Widened(s, first, wrong, wrong');
      OwnOnCourse(s, t, a.n, a.key, first, wrong');
    } else if t in s.threads && Next(s, a).threads[t] == s.threads[t] {
      OtherOnCourse(s, a, t, first, wrong, wrong');
    } else if a.Fail? && a.t == t && t in s.threads {
      FailOnCourse(s, t, first, wrong);
    } else {
      OwnOnly(s, a, t);
      BegunOrThrown(s, a, first, wrong);
    }
  }

  /** Only a step of the thread itself changes it. */
  lemma OwnOnly(s: State, a: Action, t: nat)
    requires t in Next(s, a).threads && (t in s.threads ==> Next(s, a).threads[t] != s.threads[t])
    requires !(a.Ok? && a.t == t && t in s.threads) && !(a.Fail? && a.t == t && t in s.threads)
    ensures (a.Start? || a.Throw?) && a.t == t
  {
  }

  lemma Widened(s: State, first: Node, wrong: bool, wrong': bool)
    requires AllOnCourse(s, first, wrong) && (wrong ==> wrong')
    ensures AllOnCourse(s, first, wrong')
  {
    hide Inv;
  }

  lemma OtherOnCourse(s: State, a: Action, t: nat, first: Node, wrong: bool, wrong': bool)
    requires AllOnCourse(s, first, wrong) && (wrong ==> wrong') && !(a.Ok? && a.t == t)
    requires t in s.threads && t in Next(s, a).threads && Next(s, a).threads[t] == s.threads[t]
    ensures OnCourse(Next(s, a), first, wrong', s.threads[t])
  {
    var l := s.threads[t];
    assert OnCourse(s, first, wrong, l);
    NextFollows(s, a);
    if l.pc.Create? {
      CreateStays(s, a, t);
    }
    if !l.hurt && l.pc.Done? {
      DeservedStays(s, Next(s, a), first, wrong, wrong', l.call, l.pc.r);
    }
    hide Next, Inv, Deserved, Follows;
  }

  lemma Replied(s: State, first: Node, wrong: bool, call: Call, r: Result)
    requires Deserved(s, first, wrong, call, r)
    ensures Outcome(s, first, wrong, call, Reply(call, r))
  {
  }

  lemma ReturnedNext(s: State, a: Action, first: Node, wrong: bool, wrong': bool, k: nat)
    requires AllOnCourse(s, first, wrong) && (wrong ==> wrong')
    requires k < |Next(s, a).returned| && !Next(s, a).returned[k].hurt
    ensures var u := Next(s, a); Outcome(u, first, wrong', u.returned[k].call, u.returned[k].result)
  {
    var u := Next(s, a);
    NextFollows(s, a);
    if k < |s.returned| {
      assert u.returned[k] == s.returned[k];
      OutcomeStays(s, u, first, wrong, wrong', s.returned[k].call, s.returned[k].result);
    } else {
      var l := s.threads[a.t];
      assert OnCourse(s, first, wrong, l) && u.returned[k] == Return(a.t, l.call, l.hurt, Reply(l.call, l.pc.r));
      Replied(s, first, wrong, l.call, l.pc.r);
      OutcomeStays(s, u, first, wrong, wrong', l.call, Reply(l.call, l.pc.r));
    }
  }

  lemma CourseNext(s: State, a: Action, first: Node, wrong: bool, wrong': bool)
    requires AllOnCourse(s, first, wrong) && Ending(s)
    requires wrong' == (wrong || (a.Ok? && |a.key| != KEY_SIZE))
    ensures AllOnCourse(Next(s, a), first, wrong')
  {
    var u := Next(s, a);
    InvNext(s, a);
    PathStays(s, a);
    hide Next, Inv, OnCourse, Outcome;
    forall t | t in u.threads ensures OnCourse(u, first, wrong', u.threads[t]) {
      ThreadNext(s, a, t, first, wrong, wrong');
    }
    forall k | 0 <= k < |u.returned| && !u.returned[k].hurt
      ensures Outcome(u, first, wrong', u.returned[k].call, u.returned[k].result)
    {
      ReturnedNext(s, a, first, wrong, wrong', k);
    }
  }

  lemma {:induction false} CourseRun(s: State, run: seq<Action>)
    requires Initial(s)
    ensures AllOnCourse(Run(s, run), s.path, WrongDrawn(run)) && Ending(Run(s, run))
  {
    if run == [] {
      InvRun(s, run);
    } else {
      var before, a := run[..|run| - 1], run[|run| - 1];
      CourseRun(s, before);
      WrongSnoc(run);
      hide Next, Inv, AllOnCourse, WrongDrawn, Ending;
      CourseNext(Run(s, before), a, s.path, WrongDrawn(before), WrongDrawn(run));
      EndingNext(Run(s, before), a);
    }
  }

  lemma WrongSnoc(run: seq<Action>)
    requires run != []
    ensures var a := run[|run| - 1];
            WrongDrawn(run) <==> WrongDrawn(run[..|run| - 1]) || (a.Ok? && |a.key| != KEY_SIZE)
  {
    var before := run[..|run| - 1];
    if k :| 0 <= k < |before| && before[k].Ok? && |before[k].key| != KEY_SIZE {
      assert run[k] == before[k];
    }
    if k :| 0 <= k < |run| && run[k].Ok? && |run[k].key| != KEY_SIZE {
      assert k < |before| ==> before[k] == run[k];
    }
  }

  /**
   In any run, of any number of calls, and whatever else fails or is killed: a call none of whose own steps failed or
   threw returns the octets of the file that is there, which is then installed for good. The only other outcomes are
   these: something that is no file is at the final path; a plain load began before there was a file; a key call met a
   file, or drew a key, that has not the size of a key.
   */
  lemma CallsSucceed(s: State, run: seq<Action>, k: nat)
    requires Initial(s) && k < |Run(s, run).returned| && !Run(s, run).returned[k].hurt
    ensures var e := Run(s, run);
            var call, r := e.returned[k].call, e.returned[k].result;
            if s.path.Other? then r == Failed(Invalid)
            else match call
              case Load => (r.Data? && Installed(e, r.data)) || (r == Failed(Missing) && !s.path.Regular?)
              case Offer(_) => r.Data? && Installed(e, r.data)
              case Key =>
                || (r.Data? && Installed(e, r.data) && |r.data| == KEY_SIZE)
                || (r == Failed(Refused) && (WrongDrawn(run) || WrongFile(e)))
  {
    CourseRun(s, run);
    hide Run, Inv, OnCourse, Installed, WrongDrawn;
  }

  /** A call is on record as hurt only if a step of its thread failed or threw. */
  lemma {:induction false} HurtByFailure(s: State, run: seq<Action>)
    requires Initial(s)
    ensures var e := Run(s, run);
            && (forall t :: t in e.threads && e.threads[t].hurt ==> Fail(t) in run || Throw(t) in run)
            && (forall k :: 0 <= k < |e.returned| && e.returned[k].hurt ==>
                  Fail(e.returned[k].t) in run || Throw(e.returned[k].t) in run)
  {
    if run != [] {
      var before, a := run[..|run| - 1], run[|run| - 1];
      HurtByFailure(s, before);
      assert run == before + [a];
      HurtNext(Run(s, before), a);
    }
  }

  lemma HurtNext(s: State, a: Action)
    ensures var u := Next(s, a);
            && (forall t :: t in u.threads && u.threads[t].hurt ==>
                  (t in s.threads && s.threads[t].hurt) || a == Fail(t) || a == Throw(t))
            && (forall k :: 0 <= k < |u.returned| && u.returned[k].hurt ==>
                  || (k < |s.returned| && u.returned[k] == s.returned[k])
                  || (u.returned[k].t in s.threads && s.threads[u.returned[k].t].hurt))
  {
    hide Next;
    forall t | t in Next(s, a).threads && Next(s, a).threads[t].hurt
      ensures (t in s.threads && s.threads[t].hurt) || a == Fail(t) || a == Throw(t)
    {
      HurtOne(s, a, t);
    }
    forall k | 0 <= k < |Next(s, a).returned|
      ensures || (k < |s.returned| && Next(s, a).returned[k] == s.returned[k])
              || (Next(s, a).returned[k].t in s.threads &&
                  s.threads[Next(s, a).returned[k].t].hurt == Next(s, a).returned[k].hurt)
    {
      ReturnedOne(s, a, k);
    }
  }

  lemma HurtOne(s: State, a: Action, t: nat)
    requires t in Next(s, a).threads && Next(s, a).threads[t].hurt
    ensures (t in s.threads && s.threads[t].hurt) || a == Fail(t) || a == Throw(t)
  {
    hide Succeed, FailStep;
    if a.Ok? && a.t in s.threads {
      SucceedHurt(s, a.t, a.n, a.key, t);
    } else if a.Fail? && a.t in s.threads {
      FailHurt(s, a.t, t);
    }
  }

  lemma ReturnedOne(s: State, a: Action, k: nat)
    requires k < |Next(s, a).returned|
    ensures var x := Next(s, a).returned[k];
            || (k < |s.returned| && x == s.returned[k])
            || (x.t in s.threads && s.threads[x.t].hurt == x.hurt)
  {
  }

  // ----- every call can end -----

  /** `m` steps of thread `t` alone. */
  function Alone(s: State, t: nat, key: seq<byte>, m: nat): State
    decreases m
  {
    if m == 0 then s else Alone(Next(s, Ok(t, KEY_SIZE, key)), t, key, m - 1)
  }

  /** How far a call is from its end. */
  function Stage(l: Thread): nat {
    match l.pc
    case Done(_) => 1
    case Cleanup(_) => 2
    case Rename => 3
    case Write(_, _) => 4
    case Permit(_) => 5
    case Create => 6
    case Remove => 7
    case Reading(_, _) => if l.locked then 8 else 12
    case Open => if l.locked then 9 else 13
    case Stat => if l.locked then 10 else 14
    case Begin => 11
  }

  /** What is left to read or write in that stage. */
  function Left(s: State, l: Thread): int {
    match l.pc
    case Reading(i, got) => |s.Content(i)| - |got|
    case Write(_, rest) => |rest|
    case _ => 0
  }

  /** Thread `t` has returned, or is closer to it. */
  predicate Forward(s: State, u: State, t: nat)
    requires t in s.threads
  {
    if s.threads[t].pc.Done? then t !in u.threads && |u.returned| == |s.returned| + 1 && s.returned <= u.returned
    else
      && t in u.threads && u.returned == s.returned && (u.lock.Free? || u.lock == Held(t))
      && (|| Stage(u.threads[t]) < Stage(s.threads[t])
          || (Stage(u.threads[t]) == Stage(s.threads[t]) && 0 <= Left(u, u.threads[t]) < Left(s, s.threads[t])))
  }

  lemma ReadForward(s: State, t: nat, key: seq<byte>)
    requires t in s.threads && ThreadOk(s, t, s.threads[t]) && |key| == KEY_SIZE && (s.lock.Free? || s.lock == Held(t))
    requires s.threads[t].pc.Stat? || s.threads[t].pc.Open? || s.threads[t].pc.Reading?
    ensures Forward(s, Succeed(s, t, KEY_SIZE, key), t)
  {
  }

  lemma LockForward(s: State, t: nat, key: seq<byte>)
    requires t in s.threads && ThreadOk(s, t, s.threads[t]) && (s.lock.Free? || s.lock == Held(t))
    requires s.threads[t].pc.Begin? || s.threads[t].pc.Remove? || s.threads[t].pc.Create? || s.threads[t].pc.Permit?
    ensures Forward(s, Succeed(s, t, KEY_SIZE, key), t)
  {
  }

  lemma WriteForward(s: State, t: nat, key: seq<byte>)
    requires t in s.threads && ThreadOk(s, t, s.threads[t]) && (s.lock.Free? || s.lock == Held(t))
    requires s.threads[t].pc.Write? || s.threads[t].pc.Rename? || s.threads[t].pc.Cleanup? || s.threads[t].pc.Done?
    ensures Forward(s, Succeed(s, t, KEY_SIZE, key), t)
  {
  }

  lemma StepForward(s: State, t: nat, key: seq<byte>)
    requires Inv(s) && t in s.threads && |key| == KEY_SIZE && (s.lock.Free? || s.lock == Held(t))
    ensures Forward(s, Next(s, Ok(t, KEY_SIZE, key)), t)
  {
    assert ThreadOk(s, t, s.threads[t]);
    hide Inv, ThreadOk, Succeed, Forward;
    match s.threads[t].pc
    case Stat => ReadForward(s, t, key);
    case Open => ReadForward(s, t, key);
    case Reading(_, _) => ReadForward(s, t, key);
    case Write(_, _) => WriteForward(s, t, key);
    case Rename => WriteForward(s, t, key);
    case Cleanup(_) => WriteForward(s, t, key);
    case Done(_) => WriteForward(s, t, key);
    case _ => LockForward(s, t, key);
  }

  lemma {:induction false} Finishes(s: State, t: nat, key: seq<byte>) returns (m: nat)
    requires Inv(s) && t in s.threads && |key| == KEY_SIZE && (s.lock.Free? || s.lock == Held(t))
    ensures var u := Alone(s, t, key, m);
            t !in u.threads && |u.returned| == |s.returned| + 1 && s.returned <= u.returned
    decreases Stage(s.threads[t]), Left(s, s.threads[t])
  {
    var u := Next(s, Ok(t, KEY_SIZE, key));
    StepForward(s, t, key);
    InvNext(s, Ok(t, KEY_SIZE, key));
    hide Next, Inv, Stage, Left;
    if s.threads[t].pc.Done? {
      m := 1;
      assert Alone(s, t, key, 1) == Alone(u, t, key, 0) == u;
    } else {
      var rest := Finishes(u, t, key);
      m := rest + 1;
    }
  }

  /**
   In any state that a run reaches, a call ends by its own steps alone, if they go well, unless another one holds the
   lock; that one is running, by `HolderRuns`, and so can end.
   */
  lemma CallEnds(s: State, run: seq<Action>, t: nat, key: seq<byte>) returns (m: nat)
    requires Initial(s) && |key| == KEY_SIZE
    requires var e := Run(s, run); t in e.threads && (e.lock.Free? || e.lock == Held(t))
    ensures var e := Run(s, run);
            var u := Alone(e, t, key, m);
            t !in u.threads && |u.returned| == |e.returned| + 1 && e.returned <= u.returned
  {
    InvRun(s, run);
    hide Run, Next;
    m := Finishes(Run(s, run), t, key);
  }

  lemma HolderRuns(s: State, run: seq<Action>)
    requires Initial(s)
    ensures var e := Run(s, run); e.lock.Held? ==> e.lock.owner in e.threads
  {
    InvRun(s, run);
  }

  // ----- the temporary file -----

  /** The temporary is in the hands of a call. */
  predicate InHand(s: State, t: nat) {
    && t in s.threads
    && (s.threads[t].pc.Permit? || s.threads[t].pc.Write? || s.threads[t].pc.Rename? || s.threads[t].pc.Cleanup?)
  }

  ghost predicate Tidied(s: State, first: Node) {
    s.tmp.Absent? || s.tmp == first || exists t :: InHand(s, t)
  }

  /** Nothing is thrown or killed, and no clean-up fails. */
  predicate Orderly(s: State, a: Action) {
    match a
    case Throw(_) => false
    case Crash(_) => false
    case Fail(t) => t in s.threads ==> !s.threads[t].pc.Cleanup?
    case _ => true
  }

  predicate AllOrderly(s: State, run: seq<Action>) {
    run == [] || (AllOrderly(s, run[..|run| - 1]) && Orderly(Run(s, run[..|run| - 1]), run[|run| - 1]))
  }

  lemma StaysInHand(s: State, a: Action, t: nat)
    requires Inv(s) && Orderly(s, a) && InHand(s, t)
    ensures Next(s, a).tmp.Absent? || InHand(Next(s, a), t)
  {
    assert ThreadOk(s, t, s.threads[t]);
  }

  lemma ComesInHand(s: State, a: Action)
    requires Inv(s) && Orderly(s, a) && Next(s, a).tmp != s.tmp
    ensures Next(s, a).tmp.Absent? || (a.Ok? && InHand(Next(s, a), a.t))
  {
  }

  lemma TidiedNext(s: State, a: Action, first: Node)
    requires Inv(s) && Orderly(s, a) && Tidied(s, first)
    ensures Tidied(Next(s, a), first)
  {
    hide Next, Inv, Orderly, InHand;
    if Next(s, a).tmp != s.tmp {
      ComesInHand(s, a);
    }
    if t :| InHand(s, t) {
      StaysInHand(s, a, t);
    }
  }

  /**
   Unless something is thrown or killed or a clean-up fails, a temporary file that is there is in the hands of a running
   call, or is the one that was there in the beginning.
   */
  lemma {:induction false} NoneLeftOver(s: State, run: seq<Action>)
    requires Initial(s) && AllOrderly(s, run)
    ensures Tidied(Run(s, run), s.tmp)
  {
    if run != [] {
      var before := run[..|run| - 1];
      NoneLeftOver(s, before);
      InvRun(s, before);
      hide Next, Inv, Orderly, Tidied;
      TidiedNext(Run(s, before), run[|run| - 1], s.tmp);
    }
  }
}
