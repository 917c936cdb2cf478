/**
 When the cached code is as new as its label: exactly as long as moves put no file in place that is older than what
 is asked for.
 */
module CodeCacheMoves {
  import opened CodeCache
  import opened CodeCacheLaws
  import opened Wrappers

  // ----- what is asked for is on disk -----

  /** No thread is about to load a text older than the version it asked for. */
  ghost predicate LoadsMet<B>(s: State<B>) {
    forall t :: t in s.threads && s.threads[t].pc.Waiting? && s.threads[t].pc.name in s.disk ==>
      s.threads[t].pc.asked <= s.disk[s.threads[t].pc.name].version
  }

  ghost predicate KnownMet<B>(s: State<B>) {
    forall n :: n in s.disk && n in s.versions && s.versions[n].Some? ==> s.versions[n].value <= s.disk[n].version
  }

  /** The moved file is at least as new as the version known under its new name, and as any that a thread waits for. */
  ghost predicate Orderly<B>(s: State<B>, a: Action) {
    a.Move? && Enabled(s, a) ==>
      && (a.to in s.versions && s.versions[a.to].Some? ==> s.versions[a.to].value <= s.disk[a.name].version)
      && forall t :: t in s.threads && s.threads[t].pc.Waiting? && s.threads[t].pc.name == a.to ==>
           s.threads[t].pc.asked <= s.disk[a.name].version
  }

  ghost predicate Met<B>(compile: Compiler<B>, s: State<B>) {
    Sound(compile, s) && LoadsMet(s) && KnownMet(s)
  }

  lemma KnownNext<B>(compile: Compiler<B>, s: State<B>, a: Action)
    requires FilesOk(s) && KnownMet(s) && Orderly(s, a)
    ensures KnownMet(Next(compile, s, a))
  {
    hide Started, Finished, Read, Unique, Recorded;
  }

  lemma LoadsNext<B>(compile: Compiler<B>, s: State<B>, a: Action)
    requires Met(compile, s) && Orderly(s, a)
    ensures LoadsMet(Next(compile, s, a))
  {
    var u := Next(compile, s, a);
    forall t | t in u.threads && u.threads[t].pc.Waiting? && u.threads[t].pc.name in u.disk
      ensures u.threads[t].pc.asked <= u.disk[u.threads[t].pc.name].version
    {
      LoadNext(compile, s, a, t);
    }
  }

  lemma LoadNext<B>(compile: Compiler<B>, s: State<B>, a: Action, t: nat)
    requires Met(compile, s) && Orderly(s, a)
    requires var u := Next(compile, s, a); t in u.threads && u.threads[t].pc.Waiting? && u.threads[t].pc.name in u.disk
    ensures var u := Next(compile, s, a); u.threads[t].pc.asked <= u.disk[u.threads[t].pc.name].version
  {
    AnyLocal(compile, s, t);
    assert Timed(s);
    hide Sound, Truthful, Needs, Answered, Filled;
  }

  ghost predicate AllOrderly<B>(compile: Compiler<B>, s: State<B>, run: seq<Action>)
    decreases |run|
  {
    run == [] || (Orderly(s, run[0]) && AllOrderly(compile, Next(compile, s, run[0]), run[1..]))
  }

  lemma NextMet<B>(compile: Compiler<B>, s: State<B>, a: Action)
    requires Met(compile, s) && Orderly(s, a)
    ensures Met(compile, Next(compile, s, a))
  {
    NextSound(compile, s, a);
    LoadsNext(compile, s, a);
    KnownNext(compile, s, a);
  }

  // ----- where the code comes from -----

  /** Some text that was on disk at the entry's version or later compiles to it. */
  ghost predicate EntryOk<B>(compile: Compiler<B>, s: State<B>, n: string, e: Entry<B>) {
    exists x :: x in s.seen && x.name == n && x.version >= e.version && Compiled(compile, [], x.text) == Some(e.code)
  }

  ghost predicate TextOk<B>(s: State<B>, n: string, asked: nat, text: Text) {
    exists x :: x in s.seen && x.name == n && x.version >= asked && x.text == text
  }

  ghost predicate Evident<B>(compile: Compiler<B>, s: State<B>, l: Local<B>) {
    && (forall n :: n in l.cached ==> EntryOk(compile, s, n, l.cached[n]))
    && (l.pc.Loaded? && l.pc.text.Some? ==> TextOk(s, l.pc.name, l.pc.asked, l.pc.text.value))
    && (l.pc.Done? && l.pc.result.Some? ==> EntryOk(compile, s, l.pc.name, l.pc.result.value))
  }

  ghost predicate AllSeen<B>(s: State<B>) {
    forall n :: n in s.disk ==> Seen(n, s.disk[n].version, s.disk[n].text) in s.seen
  }

  ghost predicate Inv<B>(compile: Compiler<B>, s: State<B>) {
    Met(compile, s) && AllSeen(s) && forall t :: t in s.threads ==> Evident(compile, s, s.threads[t])
  }

  lemma SeenNext<B>(compile: Compiler<B>, s: State<B>, a: Action)
    requires AllSeen(s)
    ensures AllSeen(Next(compile, s, a)) && s.seen <= Next(compile, s, a).seen
  {
    hide Started, Finished, Read;
  }

  lemma EntryStays<B>(compile: Compiler<B>, s: State<B>, u: State<B>, n: string, e: Entry<B>)
    requires s.seen <= u.seen && EntryOk(compile, s, n, e)
    ensures EntryOk(compile, u, n, e)
  {
  }

  lemma EvidentStays<B>(compile: Compiler<B>, s: State<B>, u: State<B>, l: Local<B>)
    requires s.seen <= u.seen && Evident(compile, s, l)
    ensures Evident(compile, u, l)
  {
    hide Compiled, EntryOk;
    forall n, e | EntryOk(compile, s, n, e) ensures EntryOk(compile, u, n, e) {
      EntryStays(compile, s, u, n, e);
    }
  }

  lemma StartedEvident<B>(compile: Compiler<B>, s: State<B>, l: Local<B>, name: string)
    requires Evident(compile, s, l)
    ensures Evident(compile, s, Started(l, name, s.versions))
  {
    hide EntryOk, TextOk;
  }

  lemma ReadEvident<B>(compile: Compiler<B>, s: State<B>, l: Local<B>)
    requires Evident(compile, s, l) && AllSeen(s) && l.pc.Waiting?
    requires l.pc.name in s.disk ==> l.pc.asked <= s.disk[l.pc.name].version
    ensures Evident(compile, s, Read(s, l))
  {
    hide EntryOk;
    if l.pc.name in s.disk {
      var f := s.disk[l.pc.name];
      assert Seen(l.pc.name, f.version, f.text) in s.seen;
    }
  }

  lemma FinishedEvident<B>(compile: Compiler<B>, s: State<B>, l: Local<B>)
    requires Evident(compile, s, l) && l.pc.Loaded?
    ensures Evident(compile, s, Finished(compile, l))
  {
    hide Compiled;
  }

  lemma OwnEvident<B>(compile: Compiler<B>, s: State<B>, a: Action)
    requires Inv(compile, s) && !Outside(a) && Enabled(s, a)
    ensures Evident(compile, s, Next(compile, s, a).At(a.t))
  {
    AnyEvident(compile, s, a.t);
    assert AllSeen(s) && LoadsMet(s);
    hide Inv, Met, Evident, AllSeen, Started, Read, Finished;
    match a
    case Exec(t, name) => StartedEvident(compile, s, s.At(t), name);
    case Load(t) => ReadEvident(compile, s, s.At(t));
    case Compile(t) => FinishedEvident(compile, s, s.At(t));
  }

  lemma AnyEvident<B>(compile: Compiler<B>, s: State<B>, t: nat)
    requires Inv(compile, s)
    ensures Evident(compile, s, s.At(t))
  {
    hide Met, EntryOk;
  }

  lemma NextInv<B>(compile: Compiler<B>, s: State<B>, a: Action)
    requires Inv(compile, s) && Orderly(s, a)
    ensures Inv(compile, Next(compile, s, a))
  {
    NextMet(compile, s, a);
    SeenNext(compile, s, a);
    hide Met, Evident, AllSeen, Orderly, Started, Finished, Read, Moved, Told;
    var u := Next(compile, s, a);
    forall t | t in u.threads ensures Evident(compile, u, u.threads[t]) {
      if !Outside(a) && Enabled(s, a) && a.t == t {
        OwnEvident(compile, s, a);
        EvidentStays(compile, s, u, u.At(t));
      } else {
        OtherThread(compile, s, a, t);
        EvidentStays(compile, s, u, s.threads[t]);
      }
    }
  }

  lemma OtherThread<B>(compile: Compiler<B>, s: State<B>, a: Action, t: nat)
    requires Outside(a) || !Enabled(s, a) || a.t != t
    ensures var u := Next(compile, s, a); t in u.threads ==> t in s.threads && u.threads[t] == s.threads[t]
  {
    hide Started, Finished, Read;
  }

  lemma {:induction false} StepsInv<B>(compile: Compiler<B>, s: State<B>, run: seq<Action>)
    requires Inv(compile, s) && AllOrderly(compile, s, run)
    ensures Inv(compile, Steps(compile, s, run))
    decreases |run|
  {
    hide Next, Inv, Orderly;
    if run != [] {
      NextInv(compile, s, run[0]);
      StepsInv(compile, Next(compile, s, run[0]), run[1..]);
    }
  }

  lemma InitialInv<B>(compile: Compiler<B>)
    ensures Inv(compile, Initial<B>())
  {
    InitialSound<B>(compile);
  }

  /**
   In any run in which no move puts a file in place that is older than the version known or waited for under its
   new name: every entry of every thread is the compiled form of a text that was on disk at
   the entry's version or later, and a call that saw no failure returns an entry at least as
   new as the version asked for.
   */
  lemma CachedIsCompiled<B>(compile: Compiler<B>, run: seq<Action>, t: nat)
    requires AllOrderly(compile, Initial<B>(), run)
    ensures var s := Steps(compile, Initial<B>(), run);
            var l := s.At(t);
            && (forall n :: n in l.cached ==>
                  exists x :: x in s.seen && x.name == n && x.version >= l.cached[n].version
                              && Compiled(compile, [], x.text) == Some(l.cached[n].code))
            && (l.pc.Done? && !l.pc.failed ==>
                  && l.pc.result.Some? && l.pc.result.value.version >= l.pc.asked
                  && exists x :: x in s.seen && x.name == l.pc.name && x.version >= l.pc.asked
                                 && Compiled(compile, [], x.text) == Some(l.pc.result.value.code))
  {
    InitialInv<B>(compile);
    StepsInv(compile, Initial<B>(), run);
    var s := Steps(compile, Initial<B>(), run);
    assert Sound(compile, s);
    AnyLocal(compile, s, t);
    AnyEvident(compile, s, t);
    hide Steps, Inv, Sound, Compiled, Bounded, Truthful, Needs;
    var l := s.At(t);
    forall n | n in l.cached ensures EntryOk(compile, s, n, l.cached[n]) {
    }
  }

  // ----- the condition on moves is exact -----

  /** A thread that has not run anything. */
  lemma NewThread<B>(s: State<B>) returns (t: nat)
    ensures t !in s.threads
  {
    t := Unused(s.threads.Keys);
  }

  lemma {:induction false} Unused(ts: set<nat>) returns (t: nat)
    ensures forall u :: u in ts ==> u < t
    decreases |ts|
  {
    if ts == {} {
      t := 0;
    } else {
      var u :| u in ts;
      assert forall x :: x in ts ==> x == u || x in ts - {u};
      t := Unused(ts - {u});
      t := if u < t then t else u + 1;
    }
  }

  lemma AfterMove<B>(compile: Compiler<B>, s: State<B>, name: string, to: string)
    requires s.pending == Nothing && name in s.disk && name != to
    ensures var u := Next(compile, Next(compile, s, Move(name, to)), Tell);
            && u.pending == Nothing && to in u.disk && u.disk[to] == s.disk[name] && u.threads == s.threads
            && (to in u.versions <==> to in s.versions) && (to in s.versions ==> u.versions[to] == s.versions[to])
  {
  }

  /** A run without moves is orderly. */
  lemma {:induction false} NoMoves<B>(compile: Compiler<B>, s: State<B>, run: seq<Action>)
    requires forall a :: a in run ==> !a.Move?
    ensures AllOrderly(compile, s, run)
    decreases |run|
  {
    hide Next;
    if run != [] {
      NoMoves(compile, Next(compile, s, run[0]), run[1..]);
    }
  }

  ghost predicate Waits<B>(s: State<B>, t: nat, n: string, w: nat) {
    t in s.threads && s.threads[t].pc.Waiting? && s.threads[t].pc.name == n && s.threads[t].pc.asked > w
  }

  /** A thread that has not run asks for the known version. */
  lemma NewWaits<B>(compile: Compiler<B>, s: State<B>, t: nat, n: string, w: nat)
    requires t !in s.threads && n in s.versions && s.versions[n].Some? && s.versions[n].value > w
    ensures var u := Next(compile, s, Exec(t, n)); u == s.(threads := u.threads) && Waits(u, t, n, w)
  {
  }

  /** What makes a move disorderly. */
  lemma Disorderly<B>(compile: Compiler<B>, s: State<B>, a: Action)
    requires Met(compile, s) && a.Move? && Enabled(s, a) && !Orderly(s, a)
    ensures a.name != a.to
    ensures var v := s.disk[a.name].version;
            || (a.to in s.versions && s.versions[a.to].Some? && s.versions[a.to].value > v)
            || exists w :: Waits(s, w, a.to, v)
  {
    hide Sound;
    var v := s.disk[a.name].version;
    if !(a.to in s.versions && s.versions[a.to].Some? && s.versions[a.to].value > v) {
      var t :| t in s.threads && s.threads[t].pc.Waiting? && s.threads[t].pc.name == a.to && s.threads[t].pc.asked > v;
      assert Waits(s, t, a.to, v);
    }
  }

  /** By a disorderly move a thread is let down. */
  lemma LetDown<B>(compile: Compiler<B>, s: State<B>, a: Action) returns (t: nat, after: seq<Action>)
    requires Met(compile, s) && a.Move? && Enabled(s, a) && !Orderly(s, a)
    ensures forall x :: x in after ==> !x.Move?
    ensures var u := Steps(compile, Next(compile, s, a), after);
            && u.pending == Nothing && a.to in u.disk && u.disk[a.to] == s.disk[a.name]
            && Waits(u, t, a.to, s.disk[a.name].version)
  {
    var v := s.disk[a.name].version;
    Disorderly(compile, s, a);
    AfterMove(compile, s, a.name, a.to);
    hide Met, Orderly, Next, Steps;
    var u := Next(compile, s, a);
    var told := Next(compile, u, Tell);
    if w :| Waits(s, w, a.to, v) {
      t, after := w, [Tell];
      OneStep(compile, u, Tell);
    } else {
      t := NewThread(s);
      after := [Tell, Exec(t, a.to)];
      NewWaits(compile, told, t, a.to, v);
      TwoSteps(compile, u, Tell, Exec(t, a.to));
    }
  }

  lemma OneStep<B>(compile: Compiler<B>, s: State<B>, a: Action)
    ensures Steps(compile, s, [a]) == Next(compile, s, a)
  {
    hide Next;
    assert [a] == [a] + [];
    StepsCons(compile, s, a, []);
  }

  lemma {:induction false} StepsMet<B>(compile: Compiler<B>, s: State<B>, run: seq<Action>)
    requires Met(compile, s) && AllOrderly(compile, s, run)
    ensures Met(compile, Steps(compile, s, run))
    decreases |run|
  {
    hide Next, Met, Orderly;
    if run != [] {
      NextMet(compile, s, run[0]);
      StepsMet(compile, Next(compile, s, run[0]), run[1..]);
    }
  }

  /**
   The condition on moves is exact. After an orderly run, a move is orderly if and only if, however the run goes on
   in order, no thread is ever about to load a text older than the version it asked for.
   */
  lemma MovesExactly<B>(compile: Compiler<B>, before: seq<Action>, a: Action)
    requires AllOrderly(compile, Initial<B>(), before) && a.Move? && Enabled(Steps(compile, Initial<B>(), before), a)
    ensures var s := Steps(compile, Initial<B>(), before);
            Orderly(s, a) <==>
              forall after :: AllOrderly(compile, Next(compile, s, a), after) ==>
                LoadsMet(Steps(compile, Next(compile, s, a), after))
  {
    var s := Steps(compile, Initial<B>(), before);
    InitialInv<B>(compile);
    StepsMet(compile, Initial<B>(), before);
    var u := Next(compile, s, a);
    hide Sound, Next, Steps, AllOrderly;
    if Orderly(s, a) {
      NextMet(compile, s, a);
      forall after | AllOrderly(compile, u, after) ensures LoadsMet(Steps(compile, u, after)) {
        StepsMet(compile, u, after);
      }
    } else {
      var t, after := LetDown(compile, s, a);
      NoMoves(compile, u, after);
      assert !LoadsMet(Steps(compile, u, after));
    }
  }

  /**
   What a disorderly move leads to: a thread loads the moved text, compiles it, and without failure gets it under
   the later version that it asked for.
   */
  lemma StaleMove<B>(compile: Compiler<B>, before: seq<Action>, a: Action) returns (t: nat, after: seq<Action>)
    requires AllOrderly(compile, Initial<B>(), before)
    requires var s := Steps(compile, Initial<B>(), before);
             && a.Move? && Enabled(s, a) && !Orderly(s, a) && Compiled(compile, [], s.disk[a.name].text).Some?
    ensures var s := Steps(compile, Initial<B>(), before);
            var pc := Steps(compile, Next(compile, s, a), after).At(t).pc;
            && pc.Done? && !pc.failed && pc.name == a.to && pc.asked > s.disk[a.name].version
            && pc.result == Some(Entry(pc.asked, Compiled(compile, [], s.disk[a.name].text).value))
  {
    var s := Steps(compile, Initial<B>(), before);
    InitialInv<B>(compile);
    StepsMet(compile, Initial<B>(), before);
    var u := Next(compile, s, a);
    hide Met, Orderly, AllOrderly, Steps, Compiled;
    var first;
    t, first := LetDown(compile, s, a);
    after := first + [Load(t), Compile(t)];
    StepsConcat(compile, u, first, [Load(t), Compile(t)]);
    var v := Steps(compile, u, first);
    TwoSteps(compile, v, Load(t), Compile(t));
    LoadsAndCompiles(compile, v, t);
  }

  lemma LoadsAndCompiles<B>(compile: Compiler<B>, s: State<B>, t: nat)
    requires s.pending == Nothing && s.At(t).pc.Waiting? && s.At(t).pc.name in s.disk
    requires Compiled(compile, [], s.disk[s.At(t).pc.name].text).Some?
    ensures var pc := s.At(t).pc;
            var entry := Entry(pc.asked, Compiled(compile, [], s.disk[pc.name].text).value);
            Next(compile, Next(compile, s, Load(t)), Compile(t)).At(t).pc == Done(pc.name, pc.asked, Some(entry), false)
  {
    hide Compiled;
    var pc := s.At(t).pc;
    var u := Next(compile, s, Load(t));
    assert u.At(t) == s.At(t).(pc := Loaded(pc.name, pc.asked, Some(s.disk[pc.name].text)));
  }
}
