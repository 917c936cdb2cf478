/**
 The install-once protocol for the storage key file, as a state machine over the
 steps of any number of threads in any number of processes.

 Two primitives are taken as given: the write transaction of the environment is an
 exclusive lock that dies with its owner, and a rename within a directory is atomic.
 Everything else happens in small steps: a file is read and written some octets at a
 time, any step can fail, and a process can be killed between any two steps.
 */
module Install {
  import opened Bytes

  const KEY_SIZE: nat := 32

  datatype Node = Absent | Regular(inode: nat) | Other

  datatype Error = Missing | Invalid | Io | Locking | Memory | Refused

  datatype Result = Data(data: seq<byte>) | Failed(e: Error)

  /** `data(path)`, `data(path, candidate)`, and `getkey`, which is the one and then the other. */
  datatype Call = Load | Offer(candidate: seq<byte>) | Key

  datatype Pc =
    | Stat
    | Open
    | Reading(inode: nat, got: seq<byte>)
    | Begin
    | Remove
    | Create
    | Permit(inode: nat)
    | Write(inode: nat, rest: seq<byte>)
    | Rename
    | Cleanup(e: Error)
    | Done(r: Result)

  /** A running call; `candidate` is what it would install, and `hurt` records that one of its steps failed or threw. */
  datatype Thread = Thread(call: Call, candidate: seq<byte>, locked: bool, hurt: bool, pc: Pc)

  /** What a call of thread `t` came back with. */
  datatype Return = Return(t: nat, call: Call, hurt: bool, result: Result)

  datatype Lock = Free | Held(owner: nat)

  /** `offered` keeps every octet string that was ever complete at hand: the initial file and each candidate. */
  datatype State = State(
    path: Node, tmp: Node, inodes: seq<seq<byte>>, lock: Lock,
    threads: map<nat, Thread>, returned: seq<Return>, offered: set<seq<byte>>)
  {
    function Content(inode: nat): seq<byte> {
      if inode < |inodes| then inodes[inode] else []
    }

    function Move(t: nat, l: Thread): State {
      this.(threads := threads[t := l])
    }
  }

  /**
   One step of the environment or of one thread. `Ok` moves thread `t` one step on,
   transferring at most `n + 1` octets and drawing `key` where a random key is drawn;
   `Fail` makes that step fail; `Throw` unwinds the call; `Crash` kills a process.
   */
  datatype Action =
    | Start(t: nat, call: Call)
    | Ok(t: nat, n: nat, key: seq<byte>)
    | Fail(t: nat)
    | Throw(t: nat)
    | Crash(ts: set<nat>)

  function Begun(call: Call): Thread {
    match call
    case Offer(c) => Thread(call, c, false, false, Begin)
    case _ => Thread(call, [], false, false, Stat)
  }

  /** What the call does with the outcome of `read_data`. */
  function Deliver(s: State, t: nat, l: Thread, r: Result, key: seq<byte>): State {
    if r != Failed(Missing) || (l.call.Load? && !l.locked) then s.Move(t, l.(pc := Done(r)))
    else if l.locked then s.Move(t, l.(pc := Remove))
    else if |key| == KEY_SIZE then s.Move(t, l.(candidate := key, pc := Begin)).(offered := s.offered + {key})
    else s.Move(t, l.(pc := Done(Failed(Refused))))
  }

  /** `getkey` accepts data of the size of a key only. */
  function Reply(call: Call, r: Result): Result {
    if call.Key? && r.Data? && |r.data| != KEY_SIZE then Failed(Refused) else r
  }

  function Release(s: State, t: nat): Lock {
    if s.lock == Held(t) then Free else s.lock
  }

  function Min(a: nat, b: nat): nat {
    if a < b then a else b
  }

  function Succeed(s: State, t: nat, n: nat, key: seq<byte>): State
    requires t in s.threads
  {
    var l := s.threads[t];
    match l.pc
    case Stat =>
      (match s.path
       case Absent => Deliver(s, t, l, Failed(Missing), key)
       case Other => Deliver(s, t, l, Failed(Invalid), key)
       case Regular(_) => s.Move(t, l.(pc := Open)))
    case Open =>
      if s.path.Regular? then s.Move(t, l.(pc := Reading(s.path.inode, [])))
      else Deliver(s, t, l, Failed(Io), key)
    case Reading(i, got) =>
      var all := s.Content(i);
      if |got| >= |all| then Deliver(s, t, l, Data(got), key)
      else s.Move(t, l.(pc := Reading(i, got + all[|got|..Min(|got| + n + 1, |all|)])))
    case Begin =>
      if s.lock.Free? then s.Move(t, l.(locked := true, pc := Stat)).(lock := Held(t)) else s
    case Remove =>
      s.Move(t, l.(pc := Create)).(tmp := Absent)
    case Create =>
      (match s.tmp
       case Absent =>
         s.Move(t, l.(pc := Permit(|s.inodes|))).(tmp := Regular(|s.inodes|), inodes := s.inodes + [[]])
       case Regular(i) =>
         s.Move(t, l.(pc := Permit(i))).(inodes := if i < |s.inodes| then s.inodes[i := []] else s.inodes)
       case Other => s.Move(t, l.(pc := Done(Failed(Io)))))
    case Permit(i) => s.Move(t, l.(pc := Write(i, l.candidate)))
    case Write(i, rest) =>
      if rest == [] then s.Move(t, l.(pc := Rename))
      else
        var m := Min(n + 1, |rest|);
        s.Move(t, l.(pc := Write(i, rest[m..])))
         .(inodes := if i < |s.inodes| then s.inodes[i := s.inodes[i] + rest[..m]] else s.inodes)
    case Rename =>
      s.Move(t, l.(pc := Done(Data(l.candidate)))).(path := s.tmp, tmp := Absent)
    case Cleanup(e) =>
      s.Move(t, l.(pc := Done(Failed(e)))).(tmp := Absent)
    case Done(r) =>
      s.(threads := s.threads - {t}, lock := Release(s, t),
         returned := s.returned + [Return(t, l.call, l.hurt, Reply(l.call, r))])
  }

  function FailStep(s: State, t: nat): State
    requires t in s.threads
  {
    var l := s.threads[t].(hurt := true);
    match l.pc
    case Stat => Deliver(s, t, l, Failed(Io), [])
    case Open => Deliver(s, t, l, Failed(Io), [])
    case Reading(_, _) => Deliver(s, t, l, Failed(Io), [])
    case Begin => s.Move(t, l.(pc := Done(Failed(Locking))))
    case Remove => s.Move(t, l.(pc := Done(Failed(Io))))
    case Create => s.Move(t, l.(pc := Done(Failed(Io))))
    case Permit(_) => s.Move(t, l.(pc := Cleanup(Io)))
    case Write(_, _) => s.Move(t, l.(pc := Cleanup(Io)))
    case Rename => s.Move(t, l.(pc := Cleanup(Io)))
    case Cleanup(e) => s.Move(t, l.(pc := Done(Failed(e))))
    case Done(_) => s
  }

  /** A step that is not possible leaves the state as it is. */
  function Next(s: State, a: Action): State {
    match a
    case Start(t, call) =>
      if t in s.threads then s
      else
        var started := s.Move(t, Begun(call));
        if call.Offer? then started.(offered := s.offered + {call.candidate}) else started
    case Ok(t, n, key) => if t in s.threads then Succeed(s, t, n, key) else s
    case Fail(t) => if t in s.threads then FailStep(s, t) else s
    case Throw(t) =>
      if t in s.threads && !s.threads[t].pc.Done?
      then s.Move(t, s.threads[t].(hurt := true, pc := Done(Failed(Memory)))) else s
    case Crash(ts) =>
      s.(threads := s.threads - ts, lock := if s.lock.Held? && s.lock.owner in ts then Free else s.lock)
  }

  function Run(s: State, run: seq<Action>): State {
    if run == [] then s else Next(Run(s, run[..|run| - 1]), run[|run| - 1])
  }

  /** No call is running; the file may be there or not, with any left-over temporary beside it. */
  predicate Initial(s: State) {
    && s.threads == map[] && s.lock == Free && s.returned == []
    && (s.path.Regular? ==> s.path.inode < |s.inodes| && s.offered == {s.inodes[s.path.inode]})
    && (!s.path.Regular? ==> s.offered == {})
    && (s.tmp.Regular? ==> s.tmp.inode < |s.inodes| && s.tmp != s.path)
  }

  // ----- the invariant -----

  /** The file at the final path is there and holds `d`. */
  predicate Installed(s: State, d: seq<byte>) {
    s.path.Regular? && s.Content(s.path.inode) == d
  }

  /** Thread `l` is between its look at the absent file and the rename. */
  predicate Installing(s: State, l: Thread) {
    l.locked && s.path.Absent? && l.candidate in s.offered
  }

  predicate ThreadOk(s: State, t: nat, l: Thread) {
    && (l.locked <==> s.lock == Held(t))
    && match l.pc
       case Stat => l.locked ==> l.candidate in s.offered
       case Open => s.path.Regular? && (l.locked ==> l.candidate in s.offered)
       case Reading(i, got) => s.path == Regular(i) && got <= s.Content(i)
       case Begin => !l.locked && l.candidate in s.offered
       case Remove => Installing(s, l)
       case Create => Installing(s, l)
       case Permit(i) => Installing(s, l) && s.tmp == Regular(i) && s.Content(i) == []
       case Write(i, rest) => Installing(s, l) && s.tmp == Regular(i) && s.Content(i) + rest == l.candidate
       case Rename => Installing(s, l) && s.tmp.Regular? && s.Content(s.tmp.inode) == l.candidate
       case Cleanup(e) => Installing(s, l)
       case Done(r) => r.Data? ==> Installed(s, r.data)
  }

  predicate FilesOk(s: State) {
    && (s.path.Regular? ==> s.path.inode < |s.inodes| && s.Content(s.path.inode) in s.offered)
    && (s.tmp.Regular? ==> s.tmp.inode < |s.inodes| && s.tmp != s.path)
  }

  predicate Inv(s: State) {
    && FilesOk(s)
    && (s.lock.Held? ==> s.lock.owner in s.threads)
    && (forall t :: t in s.threads ==> ThreadOk(s, t, s.threads[t]))
    && (forall k :: 0 <= k < |s.returned| && s.returned[k].result.Data? ==> Installed(s, s.returned[k].result.data))
  }

  /** A step of `t` that touches no file and no lock. */
  lemma InvMove(s: State, s': State, t: nat, l: Thread)
    requires Inv(s) && s.offered <= s'.offered
    requires s' == s.Move(t, l).(offered := s'.offered)
    requires ThreadOk(s', t, l) && (s.lock == Held(t) ==> t in s.threads)
    ensures Inv(s')
  {
    forall u | u in s'.threads ensures ThreadOk(s', u, s'.threads[u]) {
      if u != t {
        assert ThreadOk(s, u, s.threads[u]);
      }
    }
  }

  /** A step of the lock's owner, with the final path absent, that works on the temporary. */
  lemma InvTemporary(s: State, s': State, t: nat, l: Thread)
    requires Inv(s) && t in s.threads && s.lock == Held(t) && s.path.Absent?
    requires s' == s.Move(t, l).(tmp := s'.tmp, inodes := s'.inodes)
    requires FilesOk(s') && ThreadOk(s', t, l)
    ensures Inv(s')
  {
    forall u | u in s'.threads ensures ThreadOk(s', u, s'.threads[u]) {
      if u != t {
        assert ThreadOk(s, u, s.threads[u]);
      }
    }
  }

  /** The rename puts a whole candidate at the final path. */
  lemma InvRename(s: State, t: nat, n: nat, key: seq<byte>)
    requires Inv(s) && t in s.threads && s.threads[t].pc.Rename?
    ensures Inv(Succeed(s, t, n, key))
  {
    var s' := Succeed(s, t, n, key);
    assert ThreadOk(s, t, s.threads[t]);
    forall u | u in s'.threads ensures ThreadOk(s', u, s'.threads[u]) {
      assert ThreadOk(s, u, s.threads[u]);
    }
  }

  lemma InvDeliver(s: State, t: nat, l: Thread, r: Result, key: seq<byte>)
    requires Inv(s) && t in s.threads && l == s.threads[t]
    requires r.Data? ==> Installed(s, r.data)
    requires r == Failed(Missing) ==> s.path.Absent? && (l.locked ==> l.candidate in s.offered)
    ensures Inv(Deliver(s, t, l, r, key))
  {
    var s' := Deliver(s, t, l, r, key);
    assert ThreadOk(s, t, l);
    InvMove(s, s', t, s'.threads[t]);
  }

  /** A thread that takes the free lock, or one that leaves and gives up what it holds. */
  lemma InvLock(s: State, t: nat, n: nat, key: seq<byte>)
    requires Inv(s) && t in s.threads && (s.threads[t].pc.Begin? || s.threads[t].pc.Done?)
    ensures Inv(Succeed(s, t, n, key))
  {
    var s' := Succeed(s, t, n, key);
    assert ThreadOk(s, t, s.threads[t]);
    forall u | u in s'.threads ensures ThreadOk(s', u, s'.threads[u]) {
      assert ThreadOk(s, u, s.threads[u]);
    }
    forall k | 0 <= k < |s'.returned| && s'.returned[k].result.Data? ensures Installed(s', s'.returned[k].result.data) {
      if k < |s.returned| {
        assert s'.returned[k] == s.returned[k];
      }
    }
  }

  /** The steps of `read_data`. */
  lemma InvReads(s: State, t: nat, n: nat, key: seq<byte>)
    requires Inv(s) && t in s.threads && (s.threads[t].pc.Stat? || s.threads[t].pc.Open? || s.threads[t].pc.Reading?)
    ensures Inv(Succeed(s, t, n, key))
  {
    var l, s' := s.threads[t], Succeed(s, t, n, key);
    assert ThreadOk(s, t, l);
    match l.pc
    case Stat =>
      if s.path.Absent? {
        InvDeliver(s, t, l, Failed(Missing), key);
      } else {
        InvMove(s, s', t, s'.threads[t]);
      }
    case Open => InvMove(s, s', t, s'.threads[t]);
    case Reading(i, got) =>
      if |got| >= |s.Content(i)| {
        InvDeliver(s, t, l, Data(got), key);
      } else {
        InvMove(s, s', t, s'.threads[t]);
      }
    case _ =>
  }

  /** The steps that write the temporary file. */
  lemma InvWrites(s: State, t: nat, n: nat, key: seq<byte>)
    requires Inv(s) && t in s.threads && (s.threads[t].pc.Permit? || s.threads[t].pc.Write?)
    ensures Inv(Succeed(s, t, n, key))
  {
    var l, s' := s.threads[t], Succeed(s, t, n, key);
    assert ThreadOk(s, t, l);
    match l.pc
    case Permit(i) =>
      assert [] + l.candidate == l.candidate;
      InvMove(s, s', t, s'.threads[t]);
    case Write(i, rest) =>
      if rest == [] {
        assert s.Content(i) + [] == s.Content(i);
        InvMove(s, s', t, s'.threads[t]);
      } else {
        var m := Min(n + 1, |rest|);
        assert s.Content(i) + rest[..m] + rest[m..] == s.Content(i) + rest;
        InvTemporary(s, s', t, s'.threads[t]);
      }
    case _ =>
  }

  lemma InvSucceed(s: State, t: nat, n: nat, key: seq<byte>)
    requires Inv(s) && t in s.threads
    ensures Inv(Succeed(s, t, n, key))
  {
    var l, s' := s.threads[t], Succeed(s, t, n, key);
    assert ThreadOk(s, t, l);
    match l.pc
    case Stat => InvReads(s, t, n, key);
    case Open => InvReads(s, t, n, key);
    case Reading(_, _) => InvReads(s, t, n, key);
    case Begin => InvLock(s, t, n, key);
    case Remove => InvTemporary(s, s', t, s'.threads[t]);
    case Create => InvTemporary(s, s', t, s'.threads[t]);
    case Permit(_) => InvWrites(s, t, n, key);
    case Write(_, _) => InvWrites(s, t, n, key);
    case Rename => InvRename(s, t, n, key);
    case Cleanup(e) => InvTemporary(s, s', t, s'.threads[t]);
    case Done(r) => InvLock(s, t, n, key);
  }

  lemma InvFail(s: State, t: nat)
    requires Inv(s) && t in s.threads
    ensures Inv(FailStep(s, t))
  {
    var l, s' := s.threads[t], FailStep(s, t);
    assert ThreadOk(s, t, l);
    if l.pc.Stat? || l.pc.Open? || l.pc.Reading? {
      InvDeliver(s, t, l, Failed(Io), []);
    } else if !l.pc.Done? {
      InvMove(s, s', t, s'.threads[t]);
    }
  }

  lemma InvCrash(s: State, ts: set<nat>)
    requires Inv(s)
    ensures Inv(Next(s, Crash(ts)))
  {
    var s' := Next(s, Crash(ts));
    forall u | u in s'.threads ensures ThreadOk(s', u, s'.threads[u]) {
      assert ThreadOk(s, u, s.threads[u]);
    }
  }

  lemma InvNext(s: State, a: Action)
    requires Inv(s)
    ensures Inv(Next(s, a))
  {
    var s' := Next(s, a);
    match a
    case Start(t, call) =>
      if t !in s.threads {
        InvMove(s, s', t, s'.threads[t]);
      }
    case Ok(t, n, key) =>
      if t in s.threads {
        InvSucceed(s, t, n, key);
      }
    case Fail(t) =>
      if t in s.threads {
        InvFail(s, t);
      }
    case Throw(t) =>
      if t in s.threads && !s.threads[t].pc.Done? {
        assert ThreadOk(s, t, s.threads[t]);
        InvMove(s, s', t, s'.threads[t]);
      }
    case Crash(ts) => InvCrash(s, ts);
  }

  lemma {:induction false} InvRun(s: State, run: seq<Action>)
    requires Initial(s)
    ensures Inv(Run(s, run))
  {
    if run != [] {
      InvRun(s, run[..|run| - 1]);
      InvNext(Run(s, run[..|run| - 1]), run[|run| - 1]);
    }
  }

  // ----- agreement -----

  lemma InstalledStays(s: State, a: Action, d: seq<byte>)
    requires Inv(s) && Installed(s, d)
    ensures Next(s, a).path == s.path && Installed(Next(s, a), d)
  {
  }

  /** Once there, the file never changes: not its octets, and not the inode behind its name. */
  lemma {:induction false} InstalledForever(s: State, run: seq<Action>, i: nat, d: seq<byte>)
    requires Initial(s) && i <= |run| && Installed(Run(s, run[..i]), d)
    ensures Run(s, run).path == Run(s, run[..i]).path && Installed(Run(s, run), d)
    decreases |run|
  {
    if i == |run| {
      assert run[..i] == run;
    } else {
      var before := run[..|run| - 1];
      assert before[..i] == run[..i];
      InstalledForever(s, before, i, d);
      InvRun(s, before);
      InstalledStays(Run(s, before), run[|run| - 1], d);
    }
  }

  /** In every run all calls that succeed return the same octets, and those are the file's. */
  lemma Agreement(s: State, run: seq<Action>)
    requires Initial(s)
    ensures var r := Run(s, run).returned;
            forall i, j :: 0 <= i < |r| && 0 <= j < |r| && r[i].result.Data? && r[j].result.Data? ==>
              r[i].result == r[j].result && Installed(Run(s, run), r[i].result.data)
  {
    InvRun(s, run);
  }

  /** The file at the final path is never partial: it is the initial file or one whole candidate. */
  lemma NeverPartial(s: State, run: seq<Action>)
    requires Initial(s)
    ensures var e := Run(s, run);
            e.path.Regular? ==> e.Content(e.path.inode) in e.offered
  {
    InvRun(s, run);
  }

  /** What was ever offered is the initial file, a candidate some call came with, or a drawn key. */
  lemma {:induction false} OfferedOnly(s: State, run: seq<Action>, d: seq<byte>)
    requires Initial(s) && d in Run(s, run).offered
    ensures || Installed(s, d)
            || (exists k :: 0 <= k < |run| && run[k].Start? && run[k].call == Offer(d))
            || (exists k :: 0 <= k < |run| && run[k].Ok? && run[k].key == d && |d| == KEY_SIZE)
  {
    if run != [] {
      var before, a := run[..|run| - 1], run[|run| - 1];
      assert run[|run| - 1] == a;
      if d in Run(s, before).offered {
        OfferedOnly(s, before, d);
        assert forall k :: 0 <= k < |before| ==> before[k] == run[k];
      }
    }
  }

  /** At most one thread is inside the transaction, and only that one can be installing. */
  lemma OneInstaller(s: State, run: seq<Action>, t: nat, u: nat)
    requires Initial(s)
    requires var e := Run(s, run);
             t in e.threads && u in e.threads && e.threads[t].locked && e.threads[u].locked
    ensures t == u
  {
    InvRun(s, run);
    var e := Run(s, run);
    assert ThreadOk(e, t, e.threads[t]) && ThreadOk(e, u, e.threads[u]);
  }

  // ----- recovery -----

  /** Thread `t` alone: a key call and `m` steps of it, none of which fails. */
  function Solo(s: State, t: nat, key: seq<byte>, m: nat): State {
    if m == 0 then Next(s, Start(t, Key)) else Next(Solo(s, t, key, m - 1), Ok(t, KEY_SIZE, key))
  }

  /**
   Whatever steps a run took and wherever its processes were killed, one undisturbed
   key call afterwards gets a key: the installed one, or its own if there is none.
   */
  lemma KeyAfterCrash(s: State, run: seq<Action>, t: nat, key: seq<byte>)
    requires Initial(s) && |key| == KEY_SIZE
    requires var e := Run(s, run);
             e.threads == map[] && !e.path.Other? && !e.tmp.Other?
             && (e.path.Regular? ==> |e.Content(e.path.inode)| == KEY_SIZE)
    ensures var e := Run(s, run);
            var k := if e.path.Regular? then e.Content(e.path.inode) else key;
            var after := Solo(e, t, key, if e.path.Regular? then 5 else 10);
            && after.returned == e.returned + [Return(t, Key, false, Data(k))]
            && Installed(after, k) && after.threads == map[]
  {
    InvRun(s, run);
    var e := Run(s, run);
    if e.path.Regular? {
      SoloFinds(e, t, key);
    } else {
      SoloBegins(e, t, key);
      SoloOpens(e, t, key);
      SoloWrites(e, t, key);
      SoloInstalls(e, t, key);
    }
  }

  lemma SoloStep(e: State, t: nat, key: seq<byte>, m: nat)
    ensures Solo(e, t, key, m + 1) == Next(Solo(e, t, key, m), Ok(t, KEY_SIZE, key))
  {
  }

  lemma SoloFinds(e: State, t: nat, key: seq<byte>)
    requires Inv(e) && e.threads == map[] && e.path.Regular? && |e.Content(e.path.inode)| == KEY_SIZE
    ensures var after := Solo(e, t, key, 5);
            after.returned == e.returned + [Return(t, Key, false, Data(e.Content(e.path.inode)))]
            && after.threads == map[]
            && after.path == e.path && after.inodes == e.inodes
  {
    var i := e.path.inode;
    var all := e.Content(i);
    var l := Thread(Key, [], false, false, Stat);
    assert Solo(e, t, key, 0) == e.Move(t, l);
    assert Solo(e, t, key, 1) == e.Move(t, l.(pc := Open));
    assert Solo(e, t, key, 2) == e.Move(t, l.(pc := Reading(i, [])));
    assert [] + all[0..KEY_SIZE] == all;
    assert Solo(e, t, key, 3) == e.Move(t, l.(pc := Reading(i, all)));
    assert Solo(e, t, key, 4) == e.Move(t, l.(pc := Done(Data(all))));
  }

  /** Up to the look at the absent file under the lock. */
  lemma SoloBegins(e: State, t: nat, key: seq<byte>)
    requires Inv(e) && e.threads == map[] && e.path.Absent? && |key| == KEY_SIZE
    ensures Solo(e, t, key, 3)
         == e.Move(t, Thread(Key, key, true, false, Remove)).(lock := Held(t), offered := e.offered + {key})
  {
    var l := Thread(Key, key, false, false, Begin);
    assert e.lock.Free?;
    assert Solo(e, t, key, 0) == e.Move(t, Thread(Key, [], false, false, Stat));
    assert Solo(e, t, key, 1) == e.Move(t, l).(offered := e.offered + {key});
    assert Solo(e, t, key, 2) ==
          e.Move(t, l.(locked := true, pc := Stat)).(lock := Held(t), offered := e.offered + {key});
  }

  /** Up to the write of the fresh temporary. */
  lemma SoloOpens(e: State, t: nat, key: seq<byte>)
    requires Inv(e) && e.threads == map[] && e.path.Absent? && |key| == KEY_SIZE
    requires Solo(e, t, key, 3)
          == e.Move(t, Thread(Key, key, true, false, Remove)).(lock := Held(t), offered := e.offered + {key})
    ensures Solo(e, t, key, 6)
         == e.Move(t, Thread(Key, key, true, false, Write(|e.inodes|, key)))
             .(lock := Held(t), offered := e.offered + {key}, tmp := Regular(|e.inodes|), inodes := e.inodes + [[]])
  {
    hide Solo;
    var i, l := |e.inodes|, Thread(Key, key, true, false, Create);
    var b := e.(lock := Held(t), offered := e.offered + {key});
    SoloStep(e, t, key, 3);
    assert Solo(e, t, key, 4) == b.Move(t, l).(tmp := Absent);
    var c := b.(tmp := Regular(i), inodes := e.inodes + [[]]);
    SoloStep(e, t, key, 4);
    assert Solo(e, t, key, 5) == c.Move(t, l.(pc := Permit(i)));
    SoloStep(e, t, key, 5);
  }

  lemma SoloWrites(e: State, t: nat, key: seq<byte>)
    requires |key| == KEY_SIZE
    requires Solo(e, t, key, 6)
          == e.Move(t, Thread(Key, key, true, false, Write(|e.inodes|, key)))
              .(lock := Held(t), offered := e.offered + {key}, tmp := Regular(|e.inodes|), inodes := e.inodes + [[]])
    ensures Solo(e, t, key, 7)
         == e.Move(t, Thread(Key, key, true, false, Write(|e.inodes|, [])))
             .(lock := Held(t), offered := e.offered + {key}, tmp := Regular(|e.inodes|), inodes := e.inodes + [key])
  {
    hide Solo;
    var i := |e.inodes|;
    var c := e.(lock := Held(t), offered := e.offered + {key}, tmp := Regular(i), inodes := e.inodes + [[]]);
    SoloStep(e, t, key, 6);
    WriteAll(c, t, Thread(Key, key, true, false, Write(i, key)), key);
    assert c.inodes[i := key] == e.inodes + [key];
  }

  lemma WriteAll(s: State, t: nat, l: Thread, key: seq<byte>)
    requires |key| == KEY_SIZE && l.pc.Write? && l.pc.rest == key
    requires l.pc.inode < |s.inodes| && s.inodes[l.pc.inode] == []
    ensures Next(s.Move(t, l), Ok(t, KEY_SIZE, key))
         == s.Move(t, l.(pc := Write(l.pc.inode, []))).(inodes := s.inodes[l.pc.inode := key])
  {
    assert key[..KEY_SIZE] == key && key[KEY_SIZE..] == [] && [] + key == key;
  }

  lemma SoloInstalls(e: State, t: nat, key: seq<byte>)
    requires Inv(e) && e.threads == map[] && |key| == KEY_SIZE
    requires Solo(e, t, key, 7)
          == e.Move(t, Thread(Key, key, true, false, Write(|e.inodes|, [])))
              .(lock := Held(t), offered := e.offered + {key}, tmp := Regular(|e.inodes|), inodes := e.inodes + [key])
    ensures var after := Solo(e, t, key, 10);
            && after.returned == e.returned + [Return(t, Key, false, Data(key))]
            && after.threads == map[] && Installed(after, key)
  {
    hide Solo;
    var l := Thread(Key, key, true, false, Rename);
    SoloStep(e, t, key, 7);
    SoloStep(e, t, key, 8);
    SoloStep(e, t, key, 9);
    var b := e.(lock := Held(t), offered := e.offered + {key}, inodes := e.inodes + [key]);
    assert Solo(e, t, key, 8) == b.Move(t, l).(tmp := Regular(|e.inodes|));
    assert Solo(e, t, key, 9) == b.Move(t, l.(pc := Done(Data(key)))).(path := Regular(|e.inodes|), tmp := Absent);
  }
}
