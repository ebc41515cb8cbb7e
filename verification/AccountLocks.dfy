/** Row locks on accounts: creates, transfers, interest operations and account updates each lock those of
    their accounts that belong to the user one by one in ascending id order, and keep them until they commit
    or roll back. */
module AccountLocks {
  import opened Options

  datatype Operation =
    | CreateTransaction(account: nat, related: Option<nat>)
    | CreateTransfer(source: nat, target: nat)
    | InterestOperation(account: nat)
    | UpdateAccount(account: nat)

  /** The accounts an operation asks for, in the order it locks them: sorted, without repetition. */
  function LockOrder(op: Operation): seq<nat> {
    match op
    case CreateTransaction(a, related) => if related.None? then [a] else SortedPair(a, related.value)
    case CreateTransfer(a, b) => SortedPair(a, b)
    case InterestOperation(a) => [a]
    case UpdateAccount(a) => [a]
  }

  /** Only accounts of the user are locked. */
  function Owned(order: seq<nat>, owned: set<nat>): (r: seq<nat>)
    ensures forall i :: 0 <= i < |r| ==> r[i] in order
    ensures Ascending(order) ==> Ascending(r)
  {
    if order == [] then []
    else
      var n := |order| - 1;
      var rest := Owned(order[..n], owned);
      if order[n] in owned then rest + [order[n]] else rest
  }

  function SortedPair(a: nat, b: nat): seq<nat> {
    if a < b then [a, b] else if a == b then [a] else [b, a]
  }

  /** Session `i` has taken the first `taken` locks of its order. */
  datatype Session = Session(op: Operation, owned: set<nat>, order: seq<nat>, taken: nat, open: bool)

  type Sessions = seq<Session>

  datatype Step =
    | Begin(op: Operation, owned: set<nat>)
    | Take(session: nat)
    | End(session: nat)
    | Rollback(session: nat)

  predicate Holds(s: Session, account: nat) {
    s.open && exists k :: 0 <= k < s.taken && k < |s.order| && s.order[k] == account
  }

  predicate Wants(s: Session) {
    s.open && s.taken < |s.order|
  }

  ghost predicate IsFree(ss: Sessions, account: nat) {
    forall j :: 0 <= j < |ss| ==> !Holds(ss[j], account)
  }

  /** A step that is not possible now does nothing: a lock request waits. */
  ghost function Apply(ss: Sessions, step: Step): Sessions {
    match step
    case Begin(op, owned) => ss + [Session(op, owned, Owned(LockOrder(op), owned), 0, true)]
    case Take(i) =>
      if i < |ss| && Wants(ss[i]) && IsFree(ss, ss[i].order[ss[i].taken])
      then ss[i := ss[i].(taken := ss[i].taken + 1)] else ss
    case End(i) =>
      if i < |ss| && ss[i].open && ss[i].taken == |ss[i].order| then ss[i := ss[i].(open := false)] else ss
    case Rollback(i) => if i < |ss| then ss[i := ss[i].(open := false)] else ss
  }

  ghost function Play(steps: seq<Step>): Sessions {
    if steps == [] then [] else Apply(Play(steps[..|steps| - 1]), steps[|steps| - 1])
  }

  // ---- The invariant

  ghost predicate Ascending(order: seq<nat>) {
    forall i, j :: 0 <= i < j < |order| ==> order[i] < order[j]
  }

  ghost predicate Sound(ss: Sessions) {
    && (forall i :: 0 <= i < |ss| ==> Ascending(ss[i].order) && ss[i].taken <= |ss[i].order|)
    && (forall i :: 0 <= i < |ss| ==> ss[i].order == Owned(LockOrder(ss[i].op), ss[i].owned))
    && forall i, j, a :: 0 <= i < |ss| && 0 <= j < |ss| && Holds(ss[i], a) && Holds(ss[j], a) ==> i == j
  }

  /** Taking the next lock adds exactly that account. */
  lemma TakeAdds(s: Session, a: nat)
    requires Wants(s)
    ensures Holds(s.(taken := s.taken + 1), a) <==> Holds(s, a) || a == s.order[s.taken]
  {
    var s' := s.(taken := s.taken + 1);
    if Holds(s, a) {
      var k :| 0 <= k < s.taken && k < |s.order| && s.order[k] == a;
      assert s'.order[k] == a;
    }
    assert s'.order[s.taken] == s.order[s.taken];
  }

  lemma StepIsSound(ss: Sessions, step: Step)
    requires Sound(ss)
    ensures Sound(Apply(ss, step))
  {
    hide Holds, Owned, LockOrder;
    var ss' := Apply(ss, step);
    match step
    case Begin(op, owned) =>
      OrderAscends(op, owned);
      NothingHeld(Session(op, owned, Owned(LockOrder(op), owned), 0, true));
    case Take(i) =>
      if ss' != ss {
        forall a ensures Holds(ss'[i], a) <==> Holds(ss[i], a) || a == ss[i].order[ss[i].taken] {
          TakeAdds(ss[i], a);
        }
      }
    case End(i) => if ss' != ss { NothingHeld(ss'[i]); }
    case Rollback(i) => if i < |ss| { NothingHeld(ss'[i]); }
  }

  lemma OrderAscends(op: Operation, owned: set<nat>)
    ensures Ascending(Owned(LockOrder(op), owned))
  {
    hide Owned;
  }

  lemma NothingHeld(s: Session)
    requires !s.open || s.taken == 0
    ensures forall a :: !Holds(s, a)
  {
  }

  /** No account is ever locked twice, and sessions lock in ascending order. */
  lemma {:induction false} EveryRunIsSound(steps: seq<Step>)
    ensures Sound(Play(steps))
  {
    hide Apply, Sound;
    if steps == [] {
      NoSessions();
    } else {
      EveryRunIsSound(steps[..|steps| - 1]);
      StepIsSound(Play(steps[..|steps| - 1]), steps[|steps| - 1]);
    }
  }

  lemma NoSessions()
    ensures Sound([])
  {
  }

  // ---- No deadlock

  /** Session i waits for an account that session j holds. */
  ghost predicate WaitsFor(ss: Sessions, i: nat, j: nat) {
    && i < |ss| && j < |ss| && Wants(ss[i]) && !Holds(ss[i], ss[i].order[ss[i].taken])
    && Holds(ss[j], ss[i].order[ss[i].taken])
  }

  function Wanted(s: Session): nat
    requires Wants(s)
  {
    s.order[s.taken]
  }

  /** Whoever is waited for and waits too, wants a higher account. */
  lemma WaitingClimbs(ss: Sessions, i: nat, j: nat)
    requires Sound(ss) && WaitsFor(ss, i, j) && Wants(ss[j])
    ensures Wanted(ss[i]) < Wanted(ss[j])
  {
    var k :| 0 <= k < ss[j].taken && k < |ss[j].order| && ss[j].order[k] == Wanted(ss[i]);
    assert Ascending(ss[j].order);
  }

  ghost predicate WaitPath(ss: Sessions, path: seq<nat>) {
    && |path| > 0
    && forall k :: 0 <= k < |path| - 1 ==> WaitsFor(ss, path[k], path[k + 1])
  }

  lemma {:induction false} PathsClimb(ss: Sessions, path: seq<nat>)
    requires Sound(ss) && WaitPath(ss, path) && |path| > 1
    requires path[|path| - 1] < |ss| && Wants(ss[path[|path| - 1]])
    ensures path[0] < |ss| && Wants(ss[path[0]]) && Wanted(ss[path[0]]) < Wanted(ss[path[|path| - 1]])
    decreases |path|
  {
    hide Sound;
    var n := |path| - 1;
    assert WaitsFor(ss, path[n - 1], path[n - 1 + 1]);
    WaitingClimbs(ss, path[n - 1], path[n]);
    if n > 1 {
      var shorter := path[..n];
      assert WaitPath(ss, shorter) by {
        forall k | 0 <= k < |shorter| - 1 ensures WaitsFor(ss, shorter[k], shorter[k + 1]) {
          assert WaitsFor(ss, path[k], path[k + 1]);
        }
      }
      PathsClimb(ss, shorter);
    }
  }

  /** In every reachable state of any number of sessions the wait-for graph has no cycle. */
  lemma WaitsAreAcyclic(steps: seq<Step>, path: seq<nat>)
    requires WaitPath(Play(steps), path) && |path| > 1
    ensures path[0] != path[|path| - 1]
  {
    hide Play, Sound;
    EveryRunIsSound(steps);
    var ss := Play(steps);
    assert WaitsFor(ss, path[0], path[0 + 1]);
    if path[0] == path[|path| - 1] {
      PathsClimb(ss, path);
    }
  }

  /** A session that can take its next lock or end. */
  ghost predicate CanProceed(ss: Sessions, i: nat) {
    i < |ss| && ss[i].open && (Wants(ss[i]) ==> IsFree(ss, Wanted(ss[i])))
  }

  /** The session wanting the highest account of all that still want one. */
  lemma HighestWanting(ss: Sessions, i: nat) returns (k: nat)
    requires i < |ss| && Wants(ss[i])
    ensures k < |ss| && Wants(ss[k]) && forall j :: 0 <= j < |ss| && Wants(ss[j]) ==> Wanted(ss[j]) <= Wanted(ss[k])
  {
    k := i;
    for n := 0 to |ss|
      invariant k < |ss| && Wants(ss[k])
      invariant forall j :: 0 <= j < n && Wants(ss[j]) ==> Wanted(ss[j]) <= Wanted(ss[k])
    {
      if Wants(ss[n]) && Wanted(ss[n]) > Wanted(ss[k]) {
        k := n;
      }
    }
  }

  /** As long as any session is open, some open session can take its next lock or finish. */
  lemma SomeoneCanProceed(steps: seq<Step>, i: nat) returns (k: nat)
    requires i < |Play(steps)| && Play(steps)[i].open
    ensures CanProceed(Play(steps), k)
    ensures Apply(Play(steps), Take(k)) != Play(steps) || Apply(Play(steps), End(k)) != Play(steps)
  {
    hide Play;
    EveryRunIsSound(steps);
    var ss := Play(steps);
    if !Wants(ss[i]) {
      return i;
    }
    k := HighestWanting(ss, i);
    if !IsFree(ss, Wanted(ss[k])) {
      var j :| 0 <= j < |ss| && Holds(ss[j], Wanted(ss[k]));
      if Wants(ss[j]) {
        NotHeldAndWanted(ss, k);
        WaitingClimbs(ss, k, j);
      }
      k := j;
    }
  }

  lemma NotHeldAndWanted(ss: Sessions, i: nat)
    requires Sound(ss) && i < |ss| && Wants(ss[i])
    ensures !Holds(ss[i], Wanted(ss[i]))
  {
    var s := ss[i];
    assert Ascending(s.order);
    assert forall k :: 0 <= k < s.taken ==> s.order[k] < s.order[s.taken];
  }

  // ---- What an operation has locked in the end

  /** The accounts whose rows an operation reads or writes. */
  function AccountsOf(op: Operation): set<nat> {
    match op
    case CreateTransaction(a, related) => {a} + if related.Some? then {related.value} else {}
    case CreateTransfer(a, b) => {a, b}
    case InterestOperation(a) => {a}
    case UpdateAccount(a) => {a}
  }

  lemma {:induction false} OwnedIsFilter(order: seq<nat>, owned: set<nat>, a: nat)
    ensures a in Owned(order, owned) <==> a in order && a in owned
  {
    if order != [] {
      var n := |order| - 1;
      OwnedIsFilter(order[..n], owned, a);
      assert order == order[..n] + [order[n]];
    }
  }

  /** In every reachable state a session that can end holds exactly those of its accounts that are the
      user's: both of a transfer, and the related one of a create too. */
  lemma ReadyHoldsAll(steps: seq<Step>, i: nat, a: nat)
    requires i < |Play(steps)| && Play(steps)[i].open && !Wants(Play(steps)[i])
    ensures var s := Play(steps)[i]; Holds(s, a) <==> a in AccountsOf(s.op) && a in s.owned
  {
    hide Play;
    EveryRunIsSound(steps);
    var s := Play(steps)[i];
    assert s.order == Owned(LockOrder(s.op), s.owned) && s.taken == |s.order|;
    OwnedIsFilter(LockOrder(s.op), s.owned, a);
    assert a in LockOrder(s.op) <==> a in AccountsOf(s.op);
  }
}
