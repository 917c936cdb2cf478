/** What the known versions and the cached code are worth, in any run of any number of threads. */
module CodeCacheLaws {
  import opened CodeCache
  import opened Wrappers

  type Compiler<!B> = (seq<string>, string) -> Option<B>

  // ----- the files and the known versions -----

  /** The latest version that can be in use: a result not yet in place is later. */
  function Latest<B>(s: State<B>): int {
    if s.pending.Replace? then s.clock - 1 else s.clock
  }

  ghost predicate Timed<B>(s: State<B>) {
    && (forall n :: n in s.disk ==> s.disk[n].version <= Latest(s))
    && (forall n :: n in s.versions && s.versions[n].Some? ==> s.versions[n].value <= Latest(s))
    && (s.pending.Replace? ==> s.pending.file.version == s.clock && s.pending.name !in s.disk)
  }

  /** A version is that of one file, and if `Plugin` knows it under a name, of that name. */
  ghost predicate Unique<B>(s: State<B>) {
    && (forall m, n :: m in s.disk && n in s.disk && m != n ==> s.disk[m].version != s.disk[n].version)
    && (forall m, n :: m in s.disk && n in s.versions && m != n && s.versions[n].Some? && s.pending != Retire(n)
          ==> s.disk[m].version != s.versions[n].value)
  }

  /** The disk thread is in the middle of something about `n`. */
  predicate PendingOn<B>(s: State<B>, n: string) {
    s.pending != Nothing && s.pending.name == n
  }

  ghost predicate InSync<B>(s: State<B>, n: string) {
    n in s.versions && s.versions[n] == s.Current(n)
  }

  /** The known version is the one on disk exactly for the names that are not on record. */
  ghost predicate Recorded<B>(s: State<B>) {
    forall n :: n in s.versions && !PendingOn(s, n) ==> (InSync(s, n) <==> n !in s.untold)
  }

  /** A saved text that is to be told is later than what is known. */
  ghost predicate SavedLater<B>(s: State<B>)
    requires s.pending.Update?
  {
    var n := s.pending.name;
    n in s.disk && n in s.versions && s.versions[n].Some? && !InSync(s, n) ==> s.versions[n].value < s.disk[n].version
  }

  ghost predicate FilesOk<B>(s: State<B>) {
    Timed(s) && Unique(s) && Recorded(s) && (s.pending.Update? ==> SavedLater(s))
  }

  lemma FilesNext<B>(compile: Compiler<B>, s: State<B>, a: Action)
    requires FilesOk(s)
    ensures FilesOk(Next(compile, s, a))
  {
    hide Next, Timed, Unique, Recorded, SavedLater;
    TimedNext(compile, s, a);
    UniqueNext(compile, s, a);
    RecordedNext(compile, s, a);
    SavedNext(compile, s, a);
  }

  lemma TimedNext<B>(compile: Compiler<B>, s: State<B>, a: Action)
    requires Timed(s)
    ensures Timed(Next(compile, s, a))
  {
    hide Started, Finished, Read;
  }

  lemma SavedNext<B>(compile: Compiler<B>, s: State<B>, a: Action)
    requires Timed(s) && (s.pending.Update? ==> SavedLater(s))
    ensures var u := Next(compile, s, a); u.pending.Update? ==> SavedLater(u)
  {
    hide Started, Finished, Read;
  }

  lemma UniqueNext<B>(compile: Compiler<B>, s: State<B>, a: Action)
    requires Timed(s) && Unique(s)
    ensures Unique(Next(compile, s, a))
  {
    if Enabled(s, a) {
      match a
      case Move(name, to) => MovedUnique(s, name, to);
      case Tell => ToldUnique(s);
      case Register(name) => RegisteredUnique(compile, s, name);
      case Place => PlacedUnique(compile, s);
      case _ => hide Started, Finished, Read, Moved, Told;
    }
  }

  lemma MovedUnique<B>(s: State<B>, name: string, to: string)
    requires Unique(s) && s.pending == Nothing && name in s.disk
    ensures Unique(Moved(s, name, to))
  {
  }

  lemma ToldUnique<B>(s: State<B>)
    requires Unique(s) && (s.pending.Update? || s.pending.Retire?)
    ensures Unique(Told(s))
  {
  }

  lemma RegisteredUnique<B>(compile: Compiler<B>, s: State<B>, name: string)
    requires Unique(s)
    ensures Unique(Next(compile, s, Register(name)))
  {
  }

  lemma PlacedUnique<B>(compile: Compiler<B>, s: State<B>)
    requires Timed(s) && Unique(s) && s.pending.Replace?
    ensures Unique(Next(compile, s, Place))
  {
  }

  lemma RecordedNext<B>(compile: Compiler<B>, s: State<B>, a: Action)
    requires Timed(s) && Unique(s) && Recorded(s)
    ensures Recorded(Next(compile, s, a))
  {
    if Enabled(s, a) {
      match a
      case Move(name, to) => MovedRecorded(s, name, to);
      case Tell => ToldRecorded(s);
      case Place => PlacedRecorded(compile, s);
      case _ => hide Started, Finished, Read, Moved, Told, Unique, Timed;
    }
  }

  lemma MovedRecorded<B>(s: State<B>, name: string, to: string)
    requires Unique(s) && Recorded(s) && s.pending == Nothing && name in s.disk
    ensures Recorded(Moved(s, name, to))
  {
  }

  lemma ToldRecorded<B>(s: State<B>)
    requires Recorded(s) && (s.pending.Update? || s.pending.Retire?)
    ensures Recorded(Told(s))
  {
  }

  lemma PlacedRecorded<B>(compile: Compiler<B>, s: State<B>)
    requires Timed(s) && Recorded(s) && s.pending.Replace?
    ensures Recorded(Next(compile, s, Place))
  {
  }

  // ----- the threads -----

  /** What a thread's call is about. */
  function Asking<B>(pc: Pc<B>): Option<(string, nat)> {
    match pc
    case Idle => None
    case Waiting(n, asked) => Some((n, asked))
    case Loaded(n, asked, _) => Some((n, asked))
    case Done(n, asked, _, _) => Some((n, asked))
  }

  /** Only for known notebooks do threads ask or keep anything, and only under versions that were known. */
  ghost predicate Bounded<B>(s: State<B>, l: Local<B>) {
    && (forall n :: n in l.cached ==> n in s.versions && l.cached[n].version <= Latest(s))
    && (Asking(l.pc).Some? ==> Asking(l.pc).value.0 in s.versions && Asking(l.pc).value.1 <= Latest(s))
    && (l.pc.Done? && l.pc.result.Some? ==> l.pc.result.value.version <= Latest(s))
  }

  /** A call that goes to the disk has no entry that would do. */
  predicate Needs<B>(l: Local<B>) {
    (l.pc.Waiting? || l.pc.Loaded?) ==> !Fresh(l.cached, l.pc.name, l.pc.asked)
  }

  /** Nothing of the thread about `n` is later than `w`, and what is of version `w` comes from `text`. */
  ghost predicate Serves<B>(compile: Compiler<B>, l: Local<B>, n: string, w: nat, text: Text) {
    && (n in l.cached ==> Comes(compile, l.cached[n], w, text))
    && match l.pc
       case Idle => true
       case Waiting(m, asked) => m == n ==> asked <= w
       case Loaded(m, asked, t) => m == n ==> asked <= w && (asked == w ==> t == Some(text))
       case Done(m, asked, r, failed) =>
         m == n ==> asked <= w && (r.Some? ==> Comes(compile, r.value, w, text))
  }

  ghost predicate Comes<B>(compile: Compiler<B>, e: Entry<B>, w: nat, text: Text) {
    e.version <= w && (e.version == w ==> Compiled(compile, [], text) == Some(e.code))
  }

  /** Nothing of the thread about `n` has version `w` or a later one. */
  ghost predicate Behind<B>(l: Local<B>, n: string, w: nat) {
    && (n in l.cached ==> l.cached[n].version < w)
    && (Asking(l.pc).Some? && Asking(l.pc).value.0 == n ==> Asking(l.pc).value.1 < w)
    && (l.pc.Done? && l.pc.name == n && l.pc.result.Some? ==> l.pc.result.value.version < w)
  }

  /** What the files mean for the thread. */
  ghost predicate Truthful<B>(compile: Compiler<B>, s: State<B>, l: Local<B>) {
    forall n :: n in s.disk && n in s.versions ==>
      && (InSync(s, n) ==> Serves(compile, l, n, s.disk[n].version, s.disk[n].text))
      && (s.pending == Update(n) && !InSync(s, n) ==> Behind(l, n, s.disk[n].version))
  }

  ghost predicate LocalOk<B>(compile: Compiler<B>, s: State<B>, l: Local<B>) {
    Bounded(s, l) && Needs(l) && Answered(l) && Truthful(compile, s, l)
  }

  /** A call that did not fail has an entry that will do. */
  predicate Answered<B>(l: Local<B>) {
    l.pc.Done? && !l.pc.failed ==> l.pc.result.Some? && l.pc.result.value.version >= l.pc.asked
  }

  // A step of a thread itself.

  lemma StartedOk<B>(compile: Compiler<B>, s: State<B>, l: Local<B>, name: string)
    requires FilesOk(s) && LocalOk(compile, s, l)
    ensures LocalOk(compile, s, Started(l, name, s.versions))
  {
    hide Compiled, Unique, Recorded;
  }

  lemma ReadOk<B>(compile: Compiler<B>, s: State<B>, l: Local<B>)
    requires LocalOk(compile, s, l) && l.pc.Waiting? && s.pending == Nothing
    ensures LocalOk(compile, s, Read(s, l))
  {
    hide Compiled;
  }

  lemma FinishedOk<B>(compile: Compiler<B>, s: State<B>, l: Local<B>)
    requires LocalOk(compile, s, l) && l.pc.Loaded?
    ensures LocalOk(compile, s, Finished(compile, l))
  {
    hide Compiled;
  }

  // A step of the disk thread, or a registration.

  lemma BoundedStays<B>(compile: Compiler<B>, s: State<B>, a: Action, l: Local<B>)
    requires FilesOk(s) && Bounded(s, l)
    ensures Bounded(Next(compile, s, a), l)
  {
    hide Started, Finished, Read, Unique, Recorded;
  }

  /** Whatever comes to be in sync is told or registered. */
  lemma SyncNext<B>(compile: Compiler<B>, s: State<B>, a: Action, n: string)
    requires FilesOk(s) && InSync(Next(compile, s, a), n) && n in Next(compile, s, a).disk
    ensures || (InSync(s, n) && n in s.disk && s.disk[n] == Next(compile, s, a).disk[n])
            || (a == Tell && s.pending == Update(n) && n in s.versions)
            || (a == Register(n) && n !in s.versions)
  {
    hide Started, Finished, Read, Recorded;
  }

  /** A step that is not the thread's own. */
  predicate Outside(a: Action) {
    !a.Exec? && !a.Load? && !a.Compile?
  }

  lemma BehindServes<B>(compile: Compiler<B>, l: Local<B>, n: string, w: nat, text: Text)
    requires Behind(l, n, w)
    ensures Serves(compile, l, n, w, text)
  {
    hide Compiled;
  }

  lemma UnknownServes<B>(compile: Compiler<B>, s: State<B>, l: Local<B>, n: string, w: nat, text: Text)
    requires Bounded(s, l) && n !in s.versions
    ensures Serves(compile, l, n, w, text)
  {
    hide Compiled;
  }

  lemma ServesNext<B>(compile: Compiler<B>, s: State<B>, a: Action, l: Local<B>, n: string)
    requires FilesOk(s) && LocalOk(compile, s, l)
    requires InSync(Next(compile, s, a), n) && n in Next(compile, s, a).disk
    ensures var f := Next(compile, s, a).disk[n]; Serves(compile, l, n, f.version, f.text)
  {
    SyncNext(compile, s, a, n);
    var u := Next(compile, s, a);
    var f := u.disk[n];
    hide Serves, Behind, FilesOk, Needs, Answered, Started, Finished, Read;
    if a == Register(n) && n !in s.versions {
      UnknownServes(compile, s, l, n, f.version, f.text);
    } else if !InSync(s, n) {
      BehindServes(compile, l, n, f.version, f.text);
    }
  }

  /** While a save is to be told, what threads have of the old text is behind. */
  lemma BehindNext<B>(compile: Compiler<B>, s: State<B>, a: Action, l: Local<B>, n: string)
    requires FilesOk(s) && LocalOk(compile, s, l) && Outside(a)
    requires var u := Next(compile, s, a); n in u.disk && n in u.versions && u.pending == Update(n) && !InSync(u, n)
    ensures Behind(l, n, Next(compile, s, a).disk[n].version)
  {
    hide Serves, Unique, Recorded, Needs, Answered;
    if Enabled(s, a) && a.Save? {
      assert a.version > s.clock == Latest(s);
    } else {
      hide Behind, Bounded, Timed;
      assert s.pending == Update(n) && n in s.disk && n in s.versions && !InSync(s, n);
    }
  }

  lemma LocalStays<B>(compile: Compiler<B>, s: State<B>, a: Action, l: Local<B>)
    requires FilesOk(s) && LocalOk(compile, s, l) && Outside(a)
    ensures LocalOk(compile, Next(compile, s, a), l)
  {
    var u := Next(compile, s, a);
    BoundedStays(compile, s, a, l);
    hide Next, FilesOk, Bounded, Needs, Answered, Behind, Serves;
    forall n | n in u.disk && n in u.versions
      ensures InSync(u, n) ==> Serves(compile, l, n, u.disk[n].version, u.disk[n].text)
      ensures u.pending == Update(n) && !InSync(u, n) ==> Behind(l, n, u.disk[n].version)
    {
      if InSync(u, n) {
        ServesNext(compile, s, a, l, n);
      } else if u.pending == Update(n) {
        BehindNext(compile, s, a, l, n);
      }
    }
  }

  // ----- all of it -----

  ghost predicate Sound<B>(compile: Compiler<B>, s: State<B>) {
    FilesOk(s) && forall t :: t in s.threads ==> LocalOk(compile, s, s.threads[t])
  }

  lemma AnyLocal<B>(compile: Compiler<B>, s: State<B>, t: nat)
    requires Sound(compile, s)
    ensures LocalOk(compile, s, s.At(t))
  {
    hide FilesOk;
    NewLocal(compile, s);
  }

  lemma NewLocal<B>(compile: Compiler<B>, s: State<B>)
    ensures LocalOk(compile, s, Local(map[], Idle))
  {
    var l: Local<B> := Local(map[], Idle);
    forall n, w, text ensures Serves(compile, l, n, w, text) && Behind(l, n, w) {
    }
  }

  /** `LocalOk` does not look at the other threads. */
  lemma SameState<B>(compile: Compiler<B>, s: State<B>, u: State<B>, l: Local<B>)
    requires LocalOk(compile, s, l) && u == s.(threads := u.threads)
    ensures LocalOk(compile, u, l)
  {
    hide Compiled;
  }

  lemma OwnStep<B>(compile: Compiler<B>, s: State<B>, a: Action)
    requires Sound(compile, s) && !Outside(a) && Enabled(s, a)
    ensures LocalOk(compile, s, Next(compile, s, a).At(a.t))
  {
    AnyLocal(compile, s, a.t);
    hide LocalOk, FilesOk;
    match a
    case Exec(t, name) => StartedOk(compile, s, s.At(t), name);
    case Load(t) => ReadOk(compile, s, s.At(t));
    case Compile(t) => FinishedOk(compile, s, s.At(t));
  }

  lemma NextSound<B>(compile: Compiler<B>, s: State<B>, a: Action)
    requires Sound(compile, s)
    ensures Sound(compile, Next(compile, s, a))
  {
    FilesNext(compile, s, a);
    hide LocalOk, FilesOk, Started, Finished, Read, Moved, Told;
    var u := Next(compile, s, a);
    if Outside(a) {
      forall t | t in s.threads ensures LocalOk(compile, u, s.threads[t]) {
        LocalStays(compile, s, a, s.threads[t]);
      }
    } else if Enabled(s, a) {
      OwnStep(compile, s, a);
      forall t | t in u.threads ensures LocalOk(compile, u, u.threads[t]) {
        assert t != a.t ==> t in s.threads && u.threads[t] == s.threads[t];
        SameState(compile, s, u, u.threads[t]);
      }
    }
  }

  function Initial<B>(): State<B> {
    State(map[], Nothing, map[], map[], 0, {}, {})
  }

  lemma {:induction false} StepsSound<B>(compile: Compiler<B>, s: State<B>, run: seq<Action>)
    requires Sound(compile, s)
    ensures Sound(compile, Steps(compile, s, run))
    decreases |run|
  {
    hide Next, Sound;
    if run != [] {
      NextSound(compile, s, run[0]);
      StepsSound(compile, Next(compile, s, run[0]), run[1..]);
    }
  }

  lemma InitialSound<B>(compile: Compiler<B>)
    ensures Sound(compile, Initial<B>())
  {
  }

  // ----- labels -----

  /**
   In any run, from step to step, an entry stays, or is replaced under a later version; it is dropped exactly by a call
   that finds its notebook gone: labels never go back.
   */
  lemma LabelsGrow<B>(compile: Compiler<B>, run: seq<Action>, a: Action, t: nat, n: string)
    requires n in Steps(compile, Initial(), run).At(t).cached
    ensures var s := Steps(compile, Initial(), run);
            var cached := Next(compile, s, a).At(t).cached;
            && (n in cached ==> cached[n] == s.At(t).cached[n] || cached[n].version > s.At(t).cached[n].version)
            && (n !in cached <==> a == Exec(t, n) && Enabled(s, a) && (n !in s.versions || s.versions[n].None?))
  {
    InitialSound<B>(compile);
    StepsSound(compile, Initial(), run);
    var s := Steps(compile, Initial(), run);
    AnyLocal(compile, s, t);
    hide Steps, Sound, Compiled, Bounded, Truthful, Answered;
    StepLabels(compile, s, a, t, n);
  }

  lemma StepLabels<B>(compile: Compiler<B>, s: State<B>, a: Action, t: nat, n: string)
    requires Needs(s.At(t)) && n in s.At(t).cached
    ensures var cached := Next(compile, s, a).At(t).cached;
            && (n in cached ==> cached[n] == s.At(t).cached[n] || cached[n].version > s.At(t).cached[n].version)
            && (n !in cached <==> a == Exec(t, n) && Enabled(s, a) && (n !in s.versions || s.versions[n].None?))
  {
    if Enabled(s, a) {
      match a
      case Exec(_, _) => hide Compiled;
      case Load(_) => hide Compiled;
      case Compile(_) => hide Compiled;
      case _ => hide Moved, Told, Compiled;
    }
  }

  // ----- the known version and the version on disk -----

  /**
   In any run: where the disk thread is not about to tell of a notebook, the known version is the one on
   disk if and only if, since `Plugin` was last told of the notebook or came to know it, no result
   was put in its place, no file was moved to its name, and no failed save removed it; if it is known as gone, a failed
   save takes back what was put in place.
   */
  lemma KnownExactly<B>(compile: Compiler<B>, run: seq<Action>, n: string)
    requires var s := Steps(compile, Initial<B>(), run); n in s.versions && !PendingOn(s, n)
    ensures var s := Steps(compile, Initial<B>(), run); s.versions[n] == s.Current(n) <==> n !in s.untold
  {
    hide Steps, LocalOk;
    InitialSound<B>(compile);
    StepsSound(compile, Initial<B>(), run);
  }

  // ----- a saved text is the text that runs -----

  /** Code asked for at the version that is known and on disk is the compiled form of the text on disk. */
  lemma AskedIsRun<B>(compile: Compiler<B>, s: State<B>, t: nat)
    requires Sound(compile, s) && s.At(t).pc.Done? && !s.At(t).pc.failed
    requires InSync(s, s.At(t).pc.name) && s.Current(s.At(t).pc.name) == Some(s.At(t).pc.asked)
    ensures var pc := s.At(t).pc;
            pc.result.Some? && Compiled(compile, [], s.disk[pc.name].text) == Some(pc.result.value.code)
  {
    AnyLocal(compile, s, t);
    hide Sound, Compiled, Bounded, Needs;
    assert Serves(compile, s.At(t), s.At(t).pc.name, s.At(t).pc.asked, s.disk[s.At(t).pc.name].text);
  }

  lemma {:induction false} AskingStays<B>(compile: Compiler<B>, s: State<B>, run: seq<Action>, t: nat)
    requires forall a :: a in run ==> !(a.Exec? && a.t == t)
    ensures Asking(Steps(compile, s, run).At(t).pc) == Asking(s.At(t).pc)
    decreases |run|
  {
    if run != [] {
      assert run[0] in run;
      AskingNext(compile, s, run[0], t);
      hide Next, Asking;
      AskingStays(compile, Next(compile, s, run[0]), run[1..], t);
    }
  }

  lemma AskingNext<B>(compile: Compiler<B>, s: State<B>, a: Action, t: nat)
    requires !(a.Exec? && a.t == t)
    ensures Asking(Next(compile, s, a).At(t).pc) == Asking(s.At(t).pc)
  {
    hide Filled, Fails, Moved, Told;
    if Enabled(s, a) && a.Move? {
      MovedThreads(s, a.name, a.to);
    } else if Enabled(s, a) && a.Tell? {
      ToldThreads(s);
    }
  }

  lemma MovedThreads<B>(s: State<B>, name: string, to: string)
    requires name in s.disk
    ensures Moved(s, name, to).threads == s.threads
  {
  }

  lemma ToldThreads<B>(s: State<B>)
    requires s.pending.Update? || s.pending.Retire?
    ensures Told(s).threads == s.threads
  {
  }

  lemma {:induction false} StepsConcat<B>(compile: Compiler<B>, s: State<B>, a: seq<Action>, b: seq<Action>)
    ensures Steps(compile, s, a + b) == Steps(compile, Steps(compile, s, a), b)
    decreases |a|
  {
    hide Next;
    if a == [] {
      assert a + b == b;
    } else {
      assert (a + b)[1..] == a[1..] + b;
      StepsConcat(compile, Next(compile, s, a[0]), a[1..], b);
    }
  }

  lemma StepsCons<B>(compile: Compiler<B>, s: State<B>, a: Action, rest: seq<Action>)
    ensures Steps(compile, s, [a] + rest) == Steps(compile, Next(compile, s, a), rest)
  {
    hide Next;
    assert ([a] + rest)[1..] == rest;
  }

  lemma TwoSteps<B>(compile: Compiler<B>, s: State<B>, a: Action, b: Action)
    ensures Steps(compile, s, [a, b]) == Next(compile, Next(compile, s, a), b)
  {
    hide Next;
    assert [a, b] == [a] + [b] && [b] == [b] + [];
    StepsCons(compile, s, a, [b]);
    StepsCons(compile, Next(compile, s, a), b, []);
  }

  lemma ThreeSteps<B>(compile: Compiler<B>, s: State<B>, a: Action, b: Action, c: Action)
    ensures Steps(compile, s, [a, b, c]) == Next(compile, Next(compile, Next(compile, s, a), b), c)
  {
    hide Next;
    assert [a, b, c] == [a] + [b, c];
    StepsCons(compile, s, a, [b, c]);
    TwoSteps(compile, Next(compile, s, a), b, c);
  }

  /** The version that a call asks for is the known one. */
  lemma AsksKnown<B>(compile: Compiler<B>, s: State<B>, t: nat, n: string)
    requires Enabled(s, Exec(t, n))
    ensures Asking(Next(compile, s, Exec(t, n)).At(t).pc) ==
            if n in s.versions && s.versions[n].Some? then Some((n, s.versions[n].value)) else None
  {
  }

  /**
   In any run, for a known notebook that is on disk and of which the disk thread is not about to tell: a
   call asks for the version on disk if and only if nothing was put in place untold; and
   if that version is known and on disk when the call is done without failure, what it
   runs is the compiled form of the text on disk, whatever happened in between.
   */
  lemma SavedIsRun<B>(compile: Compiler<B>, before: seq<Action>, t: nat, n: string, after: seq<Action>)
    requires forall a :: a in after ==> !(a.Exec? && a.t == t)
    requires var s := Steps(compile, Initial<B>(), before);
             n in s.versions && n in s.disk && !PendingOn(s, n) && Enabled(s, Exec(t, n))
    ensures var s := Steps(compile, Initial<B>(), before);
            var u := Steps(compile, s, [Exec(t, n)] + after);
            var pc := u.At(t).pc;
            && (Asking(pc) == Some((n, s.disk[n].version)) <==> n !in s.untold)
            && (n !in s.untold && pc.Done? && !pc.failed && InSync(u, n) && u.Current(n) == s.Current(n) ==>
                  pc.result.Some? && Compiled(compile, [], u.disk[n].text) == Some(pc.result.value.code))
  {
    hide Next, Steps, Compiled, Sound, Enabled, PendingOn;
    var s := Steps(compile, Initial<B>(), before);
    KnownExactly<B>(compile, before, n);
    AsksKnown(compile, s, t, n);
    StepsCons(compile, s, Exec(t, n), after);
    AskingStays(compile, Next(compile, s, Exec(t, n)), after, t);
    InitialSound<B>(compile);
    StepsSound(compile, Initial<B>(), before);
    StepsSound(compile, s, [Exec(t, n)] + after);
    var u := Steps(compile, s, [Exec(t, n)] + after);
    var pc := u.At(t).pc;
    if n !in s.untold && pc.Done? && !pc.failed && InSync(u, n) && u.Current(n) == s.Current(n) {
      AskedIsRun(compile, u, t);
    }
  }

  /**
   What a printed result does: from any state that a run reaches, once one is put in the place of a known notebook,
   a thread that has the version known so far runs that, although a later text is on disk.
   */
  lemma StaleResult<B>(compile: Compiler<B>, before: seq<Action>, t: nat, n: string, text: Text, version: nat)
    requires var s := Steps(compile, Initial<B>(), before);
             && Enabled(s, Result(n, text, version)) && Enabled(s, Exec(t, n))
             && n in s.versions && s.versions[n].Some? && Fresh(s.At(t).cached, n, s.versions[n].value)
    ensures var s := Steps(compile, Initial<B>(), before);
            var u := Steps(compile, s, [Result(n, text, version), Place, Exec(t, n)]);
            && u.At(t).pc == Done(n, s.versions[n].value, Some(s.At(t).cached[n]), false)
            && n in u.disk && u.disk[n] == File(version, text) && s.versions[n].value < version && !InSync(u, n)
  {
    hide Steps, Sound;
    InitialSound<B>(compile);
    StepsSound(compile, Initial<B>(), before);
    var s := Steps(compile, Initial<B>(), before);
    KnownInTime(compile, s, n);
    var s1 := Next(compile, s, Result(n, text, version));
    var s2 := Next(compile, s1, Place);
    assert s2.disk[n] == File(version, text) && s2.versions == s.versions && s2.threads == s.threads;
    ThreeSteps(compile, s, Result(n, text, version), Place, Exec(t, n));
  }

  /** A save that fails removes the notebook, but a thread that has the known version goes on running it. */
  lemma LostStillRuns<B>(compile: Compiler<B>, s: State<B>, t: nat, n: string)
    requires Enabled(s, SaveFails(n)) && Enabled(s, Exec(t, n))
    requires n in s.versions && s.versions[n].Some? && Fresh(s.At(t).cached, n, s.versions[n].value)
    ensures var u := Steps(compile, s, [SaveFails(n), Exec(t, n)]);
            && u.At(t).pc == Done(n, s.versions[n].value, Some(s.At(t).cached[n]), false)
            && n !in u.disk && !InSync(u, n)
  {
    hide Steps;
    TwoSteps(compile, s, SaveFails(n), Exec(t, n));
  }

  lemma KnownInTime<B>(compile: Compiler<B>, s: State<B>, n: string)
    requires Sound(compile, s) && n in s.versions && s.versions[n].Some?
    ensures s.versions[n].value <= s.clock
  {
  }
}
