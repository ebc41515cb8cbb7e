/** Refresh-token rotation: logins, concurrent refreshes, logouts, revocations and reuse detection over
    one token table.

    A refresh first reads the token it was given and later commits, in one transaction, either its
    rotation or, if the token had already been rotated away, the revocation of everything the user
    holds; any other step may come between. Token hashes are injective, so a presented token is named
    by its row. `login` records which login a token descends from; the program does not store it. */
module RefreshTokens {
  import opened Options

  datatype Reason = LogoutReason | ManualReason | PasswordChangeReason | ReuseDetected | Rotated

  /** Rows revoked before reasons were recorded have none. */
  datatype Revocation = Revocation(at: int, reason: Option<Reason>)

  datatype Token = Token(user: nat, expiresAt: int, revoked: Option<Revocation>, login: nat)

  datatype Pending =
    | Rotating(token: nat, at: int, lifetime: int)
    | RevokingAll(user: nat, at: int)
    | LoggingOut(token: nat, at: int)

  /** Row `i` is the token, and the session, with id i. */
  datatype System = System(tokens: seq<Token>, pending: seq<Pending>)

  datatype Action =
    | Login(user: nat, now: int, lifetime: int)
    | PresentForRefresh(token: nat, now: int, lifetime: int)
    | PresentForLogout(token: nat, now: int)
    | Commit(index: nat)
    | Abandon(index: nat)
    | ChangePassword(user: nat, now: int)
    | RevokeSession(user: nat, token: nat, now: int)

  predicate IsActive(t: Token, now: int) {
    t.revoked.None? && now < t.expiresAt
  }

  predicate IsReuse(t: Token) {
    t.revoked.Some? && (t.revoked.value.reason.None? || t.revoked.value.reason == Some(Rotated))
  }

  function Revoke(t: Token, at: int, reason: Reason): Token {
    if t.revoked.None? then t.(revoked := Some(Revocation(at, Some(reason)))) else t
  }

  function RevokeOne(tokens: seq<Token>, id: nat, at: int, reason: Reason): seq<Token> {
    if id < |tokens| then tokens[id := Revoke(tokens[id], at, reason)] else tokens
  }

  function RevokeByUser(tokens: seq<Token>, user: nat, at: int, reason: Reason): (r: seq<Token>)
    ensures |r| == |tokens|
    ensures forall i :: 0 <= i < |tokens| ==>
              r[i] == if tokens[i].user == user then Revoke(tokens[i], at, reason) else tokens[i]
  {
    if tokens == [] then []
    else
      var n := |tokens| - 1;
      RevokeByUser(tokens[..n], user, at, reason) +
        [if tokens[n].user == user then Revoke(tokens[n], at, reason) else tokens[n]]
  }

  /** Whether a rotation finds its old token still unrevoked. */
  predicate CanRotate(tokens: seq<Token>, id: nat) {
    id < |tokens| && tokens[id].revoked.None?
  }

  function RotateTo(tokens: seq<Token>, id: nat, at: int, lifetime: int): seq<Token> {
    if CanRotate(tokens, id)
    then RevokeOne(tokens, id, at, Rotated) + [Token(tokens[id].user, at + lifetime, None, tokens[id].login)]
    else tokens
  }

  function Committed(tokens: seq<Token>, p: Pending): seq<Token> {
    match p
    case Rotating(id, at, lifetime) => RotateTo(tokens, id, at, lifetime)
    case RevokingAll(user, at) => RevokeByUser(tokens, user, at, ReuseDetected)
    case LoggingOut(id, at) => RevokeOne(tokens, id, at, LogoutReason)
  }

  function Apply(s: System, a: Action): System {
    match a
    case Login(user, now, lifetime) => s.(tokens := s.tokens + [Token(user, now + lifetime, None, |s.tokens|)])
    case PresentForRefresh(id, now, lifetime) =>
      if id >= |s.tokens| then s
      else if IsActive(s.tokens[id], now) then s.(pending := s.pending + [Rotating(id, now, lifetime)])
      else if IsReuse(s.tokens[id]) then s.(pending := s.pending + [RevokingAll(s.tokens[id].user, now)])
      else s
    case PresentForLogout(id, now) => if id < |s.tokens| then s.(pending := s.pending + [LoggingOut(id, now)]) else s
    case Commit(i) =>
      if i < |s.pending|
      then System(Committed(s.tokens, s.pending[i]), s.pending[..i] + s.pending[i + 1..]) else s
    case Abandon(i) => if i < |s.pending| then s.(pending := s.pending[..i] + s.pending[i + 1..]) else s
    case ChangePassword(user, now) => s.(tokens := RevokeByUser(s.tokens, user, now, PasswordChangeReason))
    case RevokeSession(user, id, now) =>
      if id < |s.tokens| && s.tokens[id].user == user then s.(tokens := RevokeOne(s.tokens, id, now, ManualReason))
        else s
  }

  const START := System([], [])

  function Play(s: System, actions: seq<Action>): System {
    if actions == [] then s else Apply(Play(s, actions[..|actions| - 1]), actions[|actions| - 1])
  }

  // ---- Tokens only ever move one way

  /** Every old row is still there with its user, expiry and login, and a revocation never changes. */
  ghost predicate Evolves(before: seq<Token>, after: seq<Token>) {
    && |before| <= |after|
    && forall i :: 0 <= i < |before| ==>
         && after[i].user == before[i].user && after[i].expiresAt == before[i].expiresAt
           && after[i].login == before[i].login
         && (before[i].revoked.Some? ==> after[i].revoked == before[i].revoked)
  }

  lemma StepEvolves(s: System, a: Action)
    ensures Evolves(s.tokens, Apply(s, a).tokens)
  {
  }

  /** Revocation is permanent and keeps its first time and reason. */
  lemma {:induction false} RevocationIsPermanent(s: System, actions: seq<Action>)
    ensures Evolves(s.tokens, Play(s, actions).tokens)
  {
    hide Apply;
    if actions != [] {
      RevocationIsPermanent(s, actions[..|actions| - 1]);
      StepEvolves(Play(s, actions[..|actions| - 1]), actions[|actions| - 1]);
    }
  }

  // ---- One live token per login

  ghost predicate OneLivePerLogin(tokens: seq<Token>) {
    && (forall i, j :: 0 <= i < j < |tokens| && tokens[i].login == tokens[j].login ==>
          tokens[i].revoked.Some? || tokens[j].revoked.Some?)
    && (forall i, j :: 0 <= i < j < |tokens| && tokens[i].login == tokens[j].login ==> tokens[i].user == tokens[j].user)
    && (forall i :: 0 <= i < |tokens| ==> tokens[i].login <= i)
  }

  lemma RevokingKeepsOneLive(before: seq<Token>, after: seq<Token>)
    requires OneLivePerLogin(before) && |after| == |before| && Evolves(before, after)
    ensures OneLivePerLogin(after)
  {
  }

  lemma RotationKeepsOneLive(tokens: seq<Token>, id: nat, at: int, lifetime: int)
    requires OneLivePerLogin(tokens)
    ensures OneLivePerLogin(RotateTo(tokens, id, at, lifetime))
  {
    if CanRotate(tokens, id) {
      var marked := RevokeOne(tokens, id, at, Rotated);
      var after := RotateTo(tokens, id, at, lifetime);
      RevokingKeepsOneLive(tokens, marked);
      forall i | 0 <= i < |tokens| && tokens[i].login == tokens[id].login ensures after[i].revoked.Some? {
        assert i != id ==> tokens[i].revoked.Some?;
      }
    }
  }

  lemma StepKeepsOneLive(s: System, a: Action)
    requires OneLivePerLogin(s.tokens)
    ensures OneLivePerLogin(Apply(s, a).tokens)
  {
    hide RotateTo;
    match a
    case Commit(i) =>
      if i < |s.pending| {
        match s.pending[i]
        case Rotating(id, at, lifetime) => RotationKeepsOneLive(s.tokens, id, at, lifetime);
        case RevokingAll(user, at) => RevokingKeepsOneLive(s.tokens, RevokeByUser(s.tokens, user, at, ReuseDetected));
        case LoggingOut(id, at) => RevokingKeepsOneLive(s.tokens, RevokeOne(s.tokens, id, at, LogoutReason));
      }
    case ChangePassword(user, now) => RevokingKeepsOneLive(s.tokens,
      RevokeByUser(s.tokens, user, now, PasswordChangeReason));
    case RevokeSession(user, id, now) => RevokingKeepsOneLive(s.tokens, RevokeOne(s.tokens, id, now, ManualReason));
    case _ =>
  }

  /** In every reachable state each login has at most one unrevoked token, however refreshes race. */
  lemma {:induction false} EveryLoginHasOneLive(actions: seq<Action>)
    ensures OneLivePerLogin(Play(START, actions).tokens)
  {
    hide Apply, OneLivePerLogin;
    if actions == [] {
      NoTokensYet();
    } else {
      EveryLoginHasOneLive(actions[..|actions| - 1]);
      StepKeepsOneLive(Play(START, actions[..|actions| - 1]), actions[|actions| - 1]);
    }
  }

  lemma NoTokensYet()
    ensures OneLivePerLogin([])
  {
  }

  // ---- Reuse detection

  /** A session is valid while its token is active and the user's own. */
  predicate ValidSession(s: System, user: nat, session: nat, now: int) {
    session < |s.tokens| && s.tokens[session].user == user && IsActive(s.tokens[session], now)
  }

  /** All tokens of a user issued so far are revoked. */
  ghost predicate AllRevoked(s: System, user: nat, issued: nat) {
    issued <= |s.tokens| && forall i :: 0 <= i < issued && s.tokens[i].user == user ==> s.tokens[i].revoked.Some?
  }

  lemma {:induction false} RevokedStayRevoked(s: System, actions: seq<Action>, user: nat, issued: nat)
    requires AllRevoked(s, user, issued)
    ensures AllRevoked(Play(s, actions), user, issued)
  {
    hide Play;
    RevocationIsPermanent(s, actions);
    var s' := Play(s, actions);
    forall i | 0 <= i < issued && s'.tokens[i].user == user ensures s'.tokens[i].revoked.Some? {
      assert s.tokens[i].user == user;
    }
  }

  /** A token that can do nothing any more: it is revoked, its session is invalid at any time, no rotation
      of it commits, and presenting it starts none. */
  ghost predicate Dead(s: System, id: nat) {
    && id < |s.tokens| && s.tokens[id].revoked.Some?
    && (forall now :: !ValidSession(s, s.tokens[id].user, id, now))
    && (forall at, lifetime :: Committed(s.tokens, Rotating(id, at, lifetime)) == s.tokens)
    && forall now, lifetime :: Rotating(id, now, lifetime) !in Apply(s,
      PresentForRefresh(id, now, lifetime)).pending[|s.pending|..]
  }

  lemma RevokedIsDead(s: System, id: nat)
    requires id < |s.tokens| && s.tokens[id].revoked.Some?
    ensures Dead(s, id)
  {
  }

  /** Committing the revocation of all a user holds kills every token issued by then, for good. */
  lemma {:induction false} ReuseEndsAllSessions(s: System, i: nat, actions: seq<Action>, id: nat)
    requires i < |s.pending| && s.pending[i].RevokingAll?
    requires id < |s.tokens| && s.tokens[id].user == s.pending[i].user
    ensures Dead(Play(Apply(s, Commit(i)), actions), id)
  {
    hide Play, Dead;
    var user := s.pending[i].user;
    var s1 := Apply(s, Commit(i));
    assert AllRevoked(s1, user, |s.tokens|);
    RevokedStayRevoked(s1, actions, user, |s.tokens|);
    RevocationIsPermanent(s1, actions);
    RevokedIsDead(Play(s1, actions), id);
  }

  // ---- What each step does to sessions

  lemma {:induction false} RevokedIsDeadForGood(s: System, actions: seq<Action>, id: nat)
    requires id < |s.tokens| && s.tokens[id].revoked.Some?
    ensures Dead(Play(s, actions), id)
  {
    hide Play, Dead;
    RevocationIsPermanent(s, actions);
    RevokedIsDead(Play(s, actions), id);
  }

  /** Changing the password kills every token of the user issued by then, for good. */
  lemma {:induction false} PasswordChangeEndsAllSessions(s: System, user: nat, now: int, actions: seq<Action>, id: nat)
    requires id < |s.tokens| && s.tokens[id].user == user
    ensures Dead(Play(Apply(s, ChangePassword(user, now)), actions), id)
  {
    hide Play, Dead;
    RevokedIsDeadForGood(Apply(s, ChangePassword(user, now)), actions, id);
  }

  /** A committed logout kills its token, and revoking a session that of the user's own. */
  lemma {:induction false} LogoutEndsSession(s: System, i: nat, actions: seq<Action>)
    requires i < |s.pending| && s.pending[i].LoggingOut? && s.pending[i].token < |s.tokens|
    ensures Dead(Play(Apply(s, Commit(i)), actions), s.pending[i].token)
  {
    hide Play, Dead;
    RevokedIsDeadForGood(Apply(s, Commit(i)), actions, s.pending[i].token);
  }

  lemma {:induction false} RevokingEndsSession(s: System, user: nat, id: nat, now: int, actions: seq<Action>)
    requires id < |s.tokens| && s.tokens[id].user == user
    ensures Dead(Play(Apply(s, RevokeSession(user, id, now)), actions), id)
  {
    hide Play, Dead;
    RevokedIsDeadForGood(Apply(s, RevokeSession(user, id, now)), actions, id);
  }

  /** From its expiry on a token is no session and starts no rotation, and that moment never moves. */
  lemma {:induction false} ExpiryEndsSession(s: System, actions: seq<Action>, id: nat, user: nat, now: int,
      lifetime: int)
    requires id < |s.tokens| && s.tokens[id].expiresAt <= now
    ensures var s' := Play(s, actions);
            && !ValidSession(s', user, id, now)
            && Rotating(id, now, lifetime) !in Apply(s', PresentForRefresh(id, now, lifetime)).pending[|s'.pending|..]
  {
    hide Play;
    RevocationIsPermanent(s, actions);
  }

  /** A login opens a session of its user that is valid exactly until its lifetime is over. */
  lemma LoginOpensSession(s: System, user: nat, now: int, lifetime: int, time: int)
    ensures var s' := Apply(s, Login(user, now, lifetime));
            ValidSession(s', user, |s.tokens|, time) <==> time < now + lifetime
  {
  }

  /** Presenting a live token and committing its rotation, with nothing revoked in between, hands the session
      on: the old token is dead and its successor is valid exactly until its own lifetime is over. */
  lemma RotationHandsOn(s: System, id: nat, now: int, lifetime: int, time: int)
    requires id < |s.tokens| && IsActive(s.tokens[id], now)
    ensures var presented := Apply(s, PresentForRefresh(id, now, lifetime));
            var s' := Apply(presented, Commit(|s.pending|));
            && presented.tokens == s.tokens && |presented.pending| == |s.pending| + 1
            && Dead(s', id) && s'.pending == s.pending
            && (ValidSession(s', s.tokens[id].user, |s.tokens|, time) <==> time < now + lifetime)
  {
    hide Dead;
    var presented := Apply(s, PresentForRefresh(id, now, lifetime));
    assert presented.pending[|s.pending|] == Rotating(id, now, lifetime);
    var s' := Apply(presented, Commit(|s.pending|));
    assert presented.pending[..|s.pending|] + presented.pending[|s.pending| + 1..] == s.pending;
    RevokedIsDead(s', id);
  }

  /** What presenting a token starts: a rotation if it is live; the revocation of everything if it had been
      rotated away, or revoked before reasons were recorded; nothing if it has merely expired, or was revoked
      by a logout, a password change, by hand or with everything else. */
  lemma PresentingStarts(s: System, id: nat, now: int, lifetime: int)
    requires id < |s.tokens|
    ensures var t := s.tokens[id];
            var started := Apply(s, PresentForRefresh(id, now, lifetime)).pending;
            if t.revoked.None? then started == if now < t.expiresAt then s.pending + [Rotating(id, now, lifetime)]
              else s.pending
            else if t.revoked.value.reason in {None, Some(Rotated)}
              then started == s.pending + [RevokingAll(t.user, now)]
            else started == s.pending
  {
  }

  /** The user a step acts for, where it is not the holder of the token it was given. */
  ghost predicate ActsFor(s: System, a: Action, user: nat) {
    match a
    case Login(u, _, _) => u == user
    case PresentForRefresh(_, _, _) => false
    case PresentForLogout(_, _) => false
    case Commit(i) => i < |s.pending| && Concerns(s, s.pending[i], user)
    case Abandon(_) => false
    case ChangePassword(u, _) => u == user
    case RevokeSession(u, _, _) => u == user
  }

  ghost predicate Concerns(s: System, p: Pending, user: nat) {
    match p
    case Rotating(id, _, _) => id < |s.tokens| && s.tokens[id].user == user
    case RevokingAll(u, _) => u == user
    case LoggingOut(id, _) => id < |s.tokens| && s.tokens[id].user == user
  }

  /** No step touches a token of a user it does not act for. */
  lemma OtherUsersKeepTokens(s: System, a: Action, id: nat)
    requires id < |s.tokens| && !ActsFor(s, a, s.tokens[id].user)
    ensures id < |Apply(s, a).tokens| && Apply(s, a).tokens[id] == s.tokens[id]
  {
  }

  /** The state after a rotation has committed and any steps have followed. */
  function AfterRotation(s: System, i: nat, actions: seq<Action>): System {
    Play(Apply(s, Commit(i)), actions)
  }

  lemma {:induction false} RotatedStaysRotated(s: System, i: nat, actions: seq<Action>)
    requires i < |s.pending| && s.pending[i].Rotating? && CanRotate(s.tokens, s.pending[i].token)
    ensures var id, s' := s.pending[i].token, AfterRotation(s, i, actions);
            && id < |s'.tokens| && s'.tokens[id].user == s.tokens[id].user
            && s'.tokens[id].revoked.Some? && s'.tokens[id].revoked.value.reason == Some(Rotated)
  {
    hide Play;
    var id, s1 := s.pending[i].token, Apply(s, Commit(i));
    assert s1.tokens[id].revoked.value.reason == Some(Rotated);
    RevocationIsPermanent(s1, actions);
  }

  /** The whole story of a stolen token, with any other steps of any users before, between and after. Once
      a rotation of a token has committed, presenting the old token again starts the revocation of all its
      user holds; and when that commits, every token of the user issued by then is dead in all later
      states, the rotation's successor and whatever refreshes in flight made of it included. */
  lemma {:induction false} ReplayEndsAllSessions(
      s: System, i: nat, before: seq<Action>, now: int, lifetime: int, between: seq<Action>, j: nat,
        later: seq<Action>, other: nat)
    requires i < |s.pending| && s.pending[i].Rotating? && CanRotate(s.tokens, s.pending[i].token)
    ensures var id, user := s.pending[i].token, s.tokens[s.pending[i].token].user;
            var rotated := AfterRotation(s, i, before);
            var replayed := Apply(rotated, PresentForRefresh(id, now, lifetime));
            var caught := Play(replayed, between);
            && replayed.pending == rotated.pending + [RevokingAll(user, now)]
            && (j < |caught.pending| && caught.pending[j] == RevokingAll(user, now)
                && other < |caught.tokens| && caught.tokens[other].user == user ==>
                  Dead(Play(Apply(caught, Commit(j)), later), other))
  {
    hide Play, Dead, AfterRotation;
    var id, user := s.pending[i].token, s.tokens[s.pending[i].token].user;
    RotatedStaysRotated(s, i, before);
    var replayed := Apply(AfterRotation(s, i, before), PresentForRefresh(id, now, lifetime));
    var caught := Play(replayed, between);
    if j < |caught.pending| && caught.pending[j] == RevokingAll(user, now)
       && other < |caught.tokens| && caught.tokens[other].user == user {
      ReuseEndsAllSessions(caught, j, later, other);
    }
  }

  /** A rotation that lost its race changes nothing: of two refreshes of one token at most one commits. */
  lemma {:induction false} OneRotationCommits(s: System, i: nat, actions: seq<Action>, at: int, lifetime: int)
    requires i < |s.pending| && s.pending[i].Rotating?
    requires CanRotate(s.tokens, s.pending[i].token)
    ensures var s', id := Play(Apply(s, Commit(i)), actions), s.pending[i].token;
            Committed(s'.tokens, Rotating(id, at, lifetime)) == s'.tokens
  {
    hide Play;
    var s1, id := Apply(s, Commit(i)), s.pending[i].token;
    assert s1.tokens[id].revoked.Some?;
    RevocationIsPermanent(s1, actions);
  }

  // ---- The token table

  class TokenTable {
    var tokens: seq<Token>

    constructor ()
      ensures tokens == []
    {
      tokens := [];
    }

    method RevokeToken(id: nat, at: int, reason: Reason) returns (found: bool)
      modifies this
      ensures found == CanRotate(old(tokens), id)
      ensures tokens == RevokeOne(old(tokens), id, at, reason)
    {
      found := id < |tokens| && tokens[id].revoked.None?;
      if found {
        tokens := tokens[id := tokens[id].(revoked := Some(Revocation(at, Some(reason))))];
      }
    }

    /** Revoke the old token and insert its successor, or neither. */
    method Rotate(id: nat, at: int, lifetime: int) returns (rotated: bool)
      modifies this
      ensures rotated == CanRotate(old(tokens), id)
      ensures tokens == RotateTo(old(tokens), id, at, lifetime)
    {
      rotated := RevokeToken(id, at, Rotated);
      if rotated {
        tokens := tokens + [Token(tokens[id].user, at + lifetime, None, tokens[id].login)];
      }
    }

    method RevokeAllOf(user: nat, at: int, reason: Reason)
      modifies this
      ensures tokens == RevokeByUser(old(tokens), user, at, reason)
    {
      for i := 0 to |tokens|
        invariant |tokens| == |old(tokens)|
        invariant forall j :: 0 <= j < |tokens| ==>
                    tokens[j] == if j < i && old(tokens)[j].user == user then Revoke(old(tokens)[j], at, reason)
                      else old(tokens)[j]
      {
        if tokens[i].user == user && tokens[i].revoked.None? {
          tokens := tokens[i := tokens[i].(revoked := Some(Revocation(at, Some(reason))))];
        }
      }
    }
  }
}
