/** What replies the handles of a kernel are given, in any run. */
module KernelReplies {
  import opened KernelPipe

  function Sum(ns: seq<nat>): nat {
    if ns == [] then 0 else Sum(ns[..|ns| - 1]) + ns[|ns| - 1]
  }

  /** How many requests went into the pipe: those finished, and the front one once it is sent. */
  ghost predicate Sent<C, R>(s: System<C, R>, sent: nat) {
    var n := |s.parent.finished|;
    && n <= sent <= |s.posted|
    && match s.parent.phase
       case Writing(false) => sent == n
       case Writing(true) => sent == n + 1
       case Reading => sent == n + 1
       case Idle => s.parent.requests == [] ==> sent == n
  }

  function Requests(hs: seq<Handle>): seq<Request> {
    if hs == [] then [] else [hs[0].request] + Requests(hs[1..])
  }

  /** The replies from place `r` up to place `done`. */
  function Replies<C, R>(e: Engine<C, R>, hs: seq<Handle>, r: nat, done: nat): seq<R>
    requires done <= |hs|
    decreases done - r
  {
    if r >= done then [] else [ReplyAfter(e, hs[..r], hs[r])] + Replies(e, hs, r + 1, done)
  }

  /** Requests are answered in the order sent, `done` of them so far, and replies leave the pipe in that order. */
  ghost predicate Piped<C, R>(e: Engine<C, R>, s: System<C, R>, done: nat, sent: nat) {
    var r := Sum(s.took);
    && r <= done <= sent <= |s.posted|
    && s.child.context == ContextAfter(e, s.posted[..done])
    && s.cout == Replies(e, s.posted, r, done)
    && s.child.jobs + s.cin == Requests(s.posted[done..sent])
  }

  /** Every reply given is the one at its place among the replies, which is the number of those that left before. */
  ghost predicate Replied<C, R>(e: Engine<C, R>, s: System<C, R>) {
    && |s.took| == |s.parent.finished|
    && forall k :: 0 <= k < |s.parent.finished| && s.parent.finished[k].1.Reply? ==> RepliedAt(e, s, k)
  }

  ghost predicate RepliedAt<C, R>(e: Engine<C, R>, s: System<C, R>, k: nat)
    requires |s.took| == |s.parent.finished| && k < |s.parent.finished| && s.parent.finished[k].1.Reply?
  {
    var p := Sum(s.took[..k]);
    && p <= k < |s.posted| && 0 < s.took[k]
    && s.parent.finished[k].1.value == ReplyAfter(e, s.posted[..p], s.posted[p])
  }

  ghost predicate Linked<C, R>(e: Engine<C, R>, s: System<C, R>) {
    InOrder(s) && Busy(s) && Replied(e, s) && exists done, sent :: Sent(s, sent) && Piped(e, s, done, sent)
  }

  lemma ContextSnoc<C, R>(e: Engine<C, R>, before: seq<Handle>, h: Handle)
    ensures ContextAfter(e, before + [h]) == Answer(e, ContextAfter(e, before), h.request).0
  {
    assert (before + [h])[..|before|] == before;
  }

  lemma {:induction false} RequestsSnoc(hs: seq<Handle>, h: Handle)
    ensures Requests(hs + [h]) == Requests(hs) + [h.request]
  {
    if hs != [] {
      assert (hs + [h])[1..] == hs[1..] + [h];
      RequestsSnoc(hs[1..], h);
    }
  }

  lemma RequestsTurn(hs: seq<Handle>, i: nat, j: nat)
    requires i <= j <= |hs| && Requests(hs[i..j]) != []
    ensures i < j && Requests(hs[i..j])[0] == hs[i].request && Requests(hs[i..j])[1..] == Requests(hs[i + 1..j])
  {
    assert hs[i..j][1..] == if i < j then hs[i + 1..j] else [];
  }

  lemma {:induction false} RepliesSnoc<C, R>(e: Engine<C, R>, hs: seq<Handle>, r: nat, done: nat)
    requires r <= done < |hs|
    ensures Replies(e, hs, r, done + 1) == Replies(e, hs, r, done) + [ReplyAfter(e, hs[..done], hs[done])]
    decreases done - r
  {
    hide ReplyAfter;
    if r < done {
      RepliesSnoc(e, hs, r + 1, done);
    }
  }

  lemma {:induction false} RepliesKept<C, R>(e: Engine<C, R>, hs: seq<Handle>, h: Handle, r: nat, done: nat)
    requires done <= |hs|
    ensures Replies(e, hs + [h], r, done) == Replies(e, hs, r, done)
    decreases done - r
  {
    hide ReplyAfter;
    if r < done {
      assert (hs + [h])[..r] == hs[..r];
      RepliesKept(e, hs, h, r + 1, done);
    }
  }

  lemma PostPiped<C, R>(e: Engine<C, R>, s: System<C, R>, h: Handle, done: nat, sent: nat)
    requires Piped(e, s, done, sent)
    ensures Piped(e, Next(e, s, Post(h)), done, sent)
  {
    hide Answer, ContextAfter, ReplyAfter, Sum, Replies, Requests;
    var more := s.posted + [h];
    RepliesKept(e, s.posted, h, Sum(s.took), done);
    assert more[..done] == s.posted[..done] && more[done..sent] == s.posted[done..sent];
  }

  lemma PostReplied<C, R>(e: Engine<C, R>, s: System<C, R>, h: Handle)
    requires Replied(e, s)
    ensures Replied(e, Next(e, s, Post(h)))
  {
    hide Answer, ContextAfter, ReplyAfter, Sum;
    var u := Next(e, s, Post(h));
    forall k | 0 <= k < |u.parent.finished| && u.parent.finished[k].1.Reply? ensures RepliedAt(e, u, k) {
      assert RepliedAt(e, s, k);
      var p := Sum(s.took[..k]);
      assert u.posted[..p] == s.posted[..p];
    }
  }

  lemma SendPiped<C, R>(e: Engine<C, R>, s: System<C, R>, done: nat, sent: nat)
    requires InOrder(s) && Sent(s, sent) && Piped(e, s, done, sent) && Enabled(s, Send)
    ensures var u := Next(e, s, Send); Sent(u, sent + 1) && Piped(e, u, done, sent + 1)
  {
    hide Answer, ContextAfter, ReplyAfter, Sum, Replies, Requests;
    var q := s.parent.requests[0];
    assert q == s.posted[sent];
    assert s.posted[done..sent + 1] == s.posted[done..sent] + [q];
    RequestsSnoc(s.posted[done..sent], q);
    assert s.child.jobs + (s.cin + [q.request]) == s.child.jobs + s.cin + [q.request];
  }

  lemma ReceivePiped<C, R>(e: Engine<C, R>, s: System<C, R>, done: nat, sent: nat)
    requires Sent(s, sent) && Piped(e, s, done, sent) && Enabled(s, Receive)
    ensures var u := Next(e, s, Receive); Sent(u, sent) && Piped(e, u, done, sent)
  {
    hide Answer, ContextAfter, ReplyAfter, Sum, Replies, Requests;
    var u := Next(e, s, Receive);
    assert u.child.jobs + u.cin == s.child.jobs + s.cin;
  }

  lemma RunPiped<C, R>(e: Engine<C, R>, s: System<C, R>, done: nat, sent: nat)
    requires Sent(s, sent) && Piped(e, s, done, sent) && Enabled(s, Run)
    ensures var u := Next(e, s, Run); Sent(u, sent) && Piped(e, u, done + 1, sent)
  {
    hide Answer, ContextAfter, Sum, Replies, Requests;
    var u := Next(e, s, Run);
    var was, now := s.child.jobs + s.cin, u.child.jobs + u.cin;
    assert was == [s.child.jobs[0]] + now;
    RequestsTurn(s.posted, done, sent);
    assert now == was[1..];
    RepliesSnoc(e, s.posted, Sum(s.took), done);
    assert s.posted[..done + 1] == s.posted[..done] + [s.posted[done]];
    ContextSnoc(e, s.posted[..done], s.posted[done]);
  }

  lemma SumSnoc(ns: seq<nat>, n: nat)
    ensures Sum(ns + [n]) == Sum(ns) + n
  {
    assert (ns + [n])[..|ns|] == ns;
  }

  /** Of two parts of the list, the longer one has at least the sum of the shorter one and the next number. */
  lemma {:induction false} SumGrows(ns: seq<nat>, i: nat, j: nat)
    requires i < j <= |ns|
    ensures Sum(ns[..i]) + ns[i] <= Sum(ns[..j])
  {
    assert ns[..j] == ns[..j - 1] + [ns[j - 1]];
    SumSnoc(ns[..j - 1], ns[j - 1]);
    if i < j - 1 {
      SumGrows(ns, i, j - 1);
    }
  }

  lemma ReadSent<C, R>(e: Engine<C, R>, s: System<C, R>, a: Action, sent: nat)
    requires Sent(s, sent) && a.ReadDone? && Enabled(s, a)
    ensures Sent(Next(e, s, a), sent)
  {
  }

  lemma ReadPiped<C, R>(e: Engine<C, R>, s: System<C, R>, a: Action, done: nat, sent: nat)
    requires Piped(e, s, done, sent) && a.ReadDone? && Enabled(s, a)
    ensures Piped(e, Next(e, s, a), done, sent)
  {
    hide Answer, ContextAfter, ReplyAfter, Sum, Requests;
    var n := Taken(a.ending, a.lost);
    SumSnoc(s.took, n);
    RepliesLength(e, s.posted, Sum(s.took), done);
    RepliesDrop(e, s.posted, Sum(s.took), done, n);
    hide Replies;
  }

  lemma {:induction false} RepliesLength<C, R>(e: Engine<C, R>, hs: seq<Handle>, r: nat, done: nat)
    requires r <= done <= |hs|
    ensures |Replies(e, hs, r, done)| == done - r
    decreases done - r
  {
    hide ReplyAfter;
    if r < done {
      RepliesLength(e, hs, r + 1, done);
    }
  }

  lemma {:induction false} RepliesDrop<C, R>(e: Engine<C, R>, hs: seq<Handle>, r: nat, done: nat, n: nat)
    requires done <= |hs| && n <= |Replies(e, hs, r, done)|
    ensures Replies(e, hs, r, done)[n..] == Replies(e, hs, r + n, done)
    decreases n
  {
    hide ReplyAfter;
    if n > 0 {
      var all := Replies(e, hs, r, done);
      assert all[n..] == all[1..][n - 1..];
      RepliesDrop(e, hs, r + 1, done, n - 1);
    }
  }

  lemma RepliesFirst<C, R>(e: Engine<C, R>, hs: seq<Handle>, r: nat, done: nat)
    requires done <= |hs| && Replies(e, hs, r, done) != []
    ensures r < done && Replies(e, hs, r, done)[0] == ReplyAfter(e, hs[..r], hs[r])
  {
    hide ReplyAfter;
  }

  lemma ReadReplied<C, R>(e: Engine<C, R>, s: System<C, R>, a: Action, done: nat, sent: nat)
    requires Sent(s, sent) && Piped(e, s, done, sent) && Replied(e, s) && a.ReadDone? && Enabled(s, a)
    ensures Replied(e, Next(e, s, a))
  {
    var u := Next(e, s, a);
    var n := |s.parent.finished|;
    hide Answer, ContextAfter, ReplyAfter, Sum;
    if a.ending.Whole? {
      RepliesFirst(e, s.posted, Sum(s.took), done);
    }
    hide Replies;
    assert u.took[..n] == s.took;
    hide Next;
    forall k | 0 <= k <= n && u.parent.finished[k].1.Reply? ensures RepliedAt(e, u, k) {
      if k < n {
        assert RepliedAt(e, s, k) && u.took[..k] == s.took[..k];
      }
    }
  }

  lemma NextLinked<C, R>(e: Engine<C, R>, s: System<C, R>, a: Action)
    requires Linked(e, s)
    ensures Linked(e, Next(e, s, a))
  {
    NextInOrder(e, s, a);
    StallsExactly(e, s, a);
    var done, sent :| Sent(s, sent) && Piped(e, s, done, sent);
    var u := Next(e, s, a);
    hide Answer, ContextAfter, ReplyAfter, Sum;
    if Enabled(s, a) {
      hide Piped, Replied, InOrder;
      match a
      case Post(h) => PostPiped(e, s, h, done, sent); PostReplied(e, s, h);
      case Send => SendPiped(e, s, done, sent); SameReplies(e, s, u);
      case Receive => ReceivePiped(e, s, done, sent); SameReplies(e, s, u);
      case Run => RunPiped(e, s, done, sent); SameReplies(e, s, u);
      case ReadDone(_, _, _) =>
        ReadSent(e, s, a, sent); ReadPiped(e, s, a, done, sent); ReadReplied(e, s, a, done, sent);
      case _ => SameReplies(e, s, u); SamePipe(e, s, u, done, sent);
    }
  }

  lemma SameReplies<C, R>(e: Engine<C, R>, s: System<C, R>, u: System<C, R>)
    requires Replied(e, s) && u.posted == s.posted && u.took == s.took && u.parent.finished == s.parent.finished
    ensures Replied(e, u)
  {
    hide Sum, ReplyAfter;
  }

  lemma SamePipe<C, R>(e: Engine<C, R>, s: System<C, R>, u: System<C, R>, done: nat, sent: nat)
    requires Piped(e, s, done, sent) && u == s.(parent := u.parent)
    ensures Piped(e, u, done, sent)
  {
    hide Sum, ReplyAfter, ContextAfter;
  }

  lemma {:induction false} StepsLinked<C, R>(e: Engine<C, R>, s: System<C, R>, run: seq<Action>)
    requires Linked(e, s)
    ensures Linked(e, Steps(e, s, run))
    decreases |run|
  {
    hide Next, Linked;
    if run != [] {
      NextLinked(e, s, run[0]);
      StepsLinked(e, Next(e, s, run[0]), run[1..]);
    }
  }

  lemma InitialLinked<C, R>(e: Engine<C, R>)
    ensures Linked(e, Initial(e))
  {
    assert Initial(e).posted[0..0] == [];
    assert Sent(Initial(e), 0) && Piped(e, Initial(e), 0, 0);
  }

  /**
   In any run, with whatever errors, and whatever octets the clients sent behind their requests: the reply that handle
   `k` is given is what evaluating the requests before the one at place `p`, then that one, gives, where `p` counts the
   replies that the reads before took out of the pipe. It is never a later one than its own, no reply is given twice or
   after a later one, and it comes too early only if a read before took none.
   */
  lemma RepliesInOrder<C, R>(e: Engine<C, R>, run: seq<Action>, k: nat)
    requires var fs := Steps(e, Initial(e), run).parent.finished; k < |fs| && fs[k].1.Reply?
    ensures var s := Steps(e, Initial(e), run);
            var fs := s.parent.finished;
            && |s.took| == |fs|
            && var p := Sum(s.took[..k]);
               && p <= k < |s.posted|
               && fs[k] == (s.posted[k], Reply(ReplyAfter(e, s.posted[..p], s.posted[p])))
               && (forall j :: 0 <= j < k && fs[j].1.Reply? ==> Sum(s.took[..j]) < p)
               && (p < k ==> exists j :: 0 <= j < k && s.took[j] == 0)
  {
    hide Steps, Linked, Sum, ReplyAfter;
    InitialLinked(e);
    StepsLinked(e, Initial(e), run);
    ReplyAt(e, Steps(e, Initial(e), run), k);
  }

  lemma ReplyAt<C, R>(e: Engine<C, R>, s: System<C, R>, k: nat)
    requires Linked(e, s) && k < |s.parent.finished| && s.parent.finished[k].1.Reply?
    ensures var fs := s.parent.finished;
            && |s.took| == |fs|
            && var p := Sum(s.took[..k]);
               && p <= k < |s.posted|
               && fs[k] == (s.posted[k], Reply(ReplyAfter(e, s.posted[..p], s.posted[p])))
               && (forall j :: 0 <= j < k && fs[j].1.Reply? ==> Sum(s.took[..j]) < p)
               && (p < k ==> exists j :: 0 <= j < k && s.took[j] == 0)
  {
    hide Answer, ContextAfter, ReplyAfter, Sum, Sent, Piped;
    assert RepliedAt(e, s, k);
    forall j | 0 <= j < k && s.parent.finished[j].1.Reply? ensures Sum(s.took[..j]) < Sum(s.took[..k]) {
      assert RepliedAt(e, s, j);
      SumGrows(s.took, j, k);
    }
    NoneTaken(s.took[..k]);
  }

  /** Numbers whose sum is less than their count have a zero among them. */
  lemma {:induction false} NoneTaken(ns: seq<nat>)
    ensures Sum(ns) < |ns| ==> exists j :: 0 <= j < |ns| && ns[j] == 0
  {
    if ns != [] {
      NoneTaken(ns[..|ns| - 1]);
    }
  }
}
