/**
 * Token rotation on the phone: restoreSession and logout (auth-context.tsx) over the
 * two-key secure store (secure-storage.ts).  The server keeps one session version per
 * user; every token carries the version it was issued for and is accepted only while
 * that version is current.  Refresh and logout advance the version.
 */
module TokenRotation {
  import opened Wrappers

  datatype Problem = RestoreTransient | SecureStorage | LogoutTransient | LogoutStorage

  /**
   * The server's session version, the two stored tokens, the token in memory, what the
   * screen shows, and the versions the server has rotated away at this phone's request,
   * whether or not the reply arrived.
   */
  datatype Phone = Phone(version: nat, access: Option<nat>, refresh: Option<nat>, memory: Option<nat>,
                         user: bool, error: Option<Problem>, rotated: set<nat>)

  datatype Delivery = Unreachable | ReplyLost | Delivered

  /** One call: how often other devices advance the version first, whether the token has expired, what arrives. */
  datatype Answer = Answer(advances: nat, expired: bool, delivery: Delivery)

  datatype Reply = Accepted | Unauthorized | Failed

  datatype Save = Saved | AccessFails | RefreshFails

  /** The outcome of every call and storage access of one restoreSession or logout. */
  datatype Env = Env(readAccess: bool, readRefresh: bool, first: Answer, refresh: Answer, save: Save, second: Answer,
                     deleteAccess: bool, deleteRefresh: bool)

  // Calls.

  function ReplyTo(accepted: bool, a: Answer): Reply {
    if !a.delivery.Delivered? then Failed else if accepted then Accepted else Unauthorized
  }

  predicate Accepts(p: Phone, token: Option<nat>, a: Answer) {
    token == Some(p.version + a.advances) && !a.expired && !a.delivery.Unreachable?
  }

  /** api.me with the token in memory. */
  function Me(p: Phone, a: Answer): (Phone, Reply) {
    (p.(version := p.version + a.advances), ReplyTo(Accepts(p, p.memory, a), a))
  }

  /** api.logout with the token in memory: it ends every session of the user. */
  function Revoke(p: Phone, a: Answer): (Phone, Reply) {
    var accepted := Accepts(p, p.memory, a);
    (p.(version := p.version + a.advances + if accepted then 1 else 0), ReplyTo(accepted, a))
  }

  /** api.refresh: the new pair carries the new version. */
  function Rotate(p: Phone, token: nat, a: Answer): (Phone, Reply) {
    var accepted := Accepts(p, Some(token), a);
    (p.(version := p.version + a.advances + (if accepted then 1 else 0),
        rotated := p.rotated + if accepted then {token} else {}),
     ReplyTo(accepted, a))
  }

  // Storage.

  function SaveTokens(p: Phone, version: nat, save: Save): Phone {
    match save
    case Saved => p.(access := Some(version), refresh := Some(version))
    case AccessFails => p
    case RefreshFails => p.(access := Some(version))
  }

  /** clearTokens ignores failing deletes. */
  function ClearTokens(p: Phone, env: Env): Phone {
    p.(access := if env.deleteAccess then None else p.access,
       refresh := if env.deleteRefresh then None else p.refresh)
  }

  function ClearMemory(p: Phone): Phone { p.(memory := None, user := false) }

  function ClearSession(p: Phone, env: Env): Phone { ClearTokens(ClearMemory(p).(error := None), env) }

  function Show(p: Phone, e: Problem): Phone { p.(error := Some(e)) }

  // restoreSession.

  function Restore(p: Phone, env: Env): Phone {
    var q := p.(error := None);
    var access := if env.readAccess then q.access else None;
    var refresh := if env.readRefresh then q.refresh else None;
    if access.None? && refresh.None? then ClearMemory(q)
    else if access.None? then RestoreByRefresh(q, refresh, env)
    else
      var (r, reply) := Me(q.(memory := access), env.first);
      match reply
      case Accepted => r.(user := true)
      case Failed => Show(ClearMemory(r), RestoreTransient)
      case Unauthorized => RestoreByRefresh(r, refresh, env)
  }

  function RestoreByRefresh(p: Phone, refresh: Option<nat>, env: Env): Phone {
    if refresh.None? then ClearMemory(ClearTokens(p, env))
    else
      var (q, reply) := Rotate(ClearMemory(p), refresh.value, env.refresh);
      match reply
      case Unauthorized => ClearMemory(ClearTokens(q, env))
      case Failed => Show(ClearMemory(q), RestoreTransient)
      case Accepted =>
        var saved := SaveTokens(q, q.version, env.save);
        if !env.save.Saved? then Show(ClearMemory(ClearTokens(saved, env)), SecureStorage)
        else RestoreIdentity(saved.(memory := Some(q.version)), env)
  }

  function RestoreIdentity(p: Phone, env: Env): Phone {
    var (q, reply) := Me(p, env.second);
    match reply
    case Accepted => q.(user := true)
    case Unauthorized => ClearMemory(ClearTokens(q, env))
    case Failed => Show(ClearMemory(q), RestoreTransient)
  }

  // logout.

  function Logout(p: Phone, env: Env): Phone {
    var (q, reply) := Revoke(p.(error := None), env.first);
    var refresh := if env.readRefresh then q.refresh else None;
    match reply
    case Accepted => ClearSession(q, env)
    case Failed => Show(q, LogoutTransient)
    case Unauthorized => if refresh.None? then ClearSession(q, env) else LogoutByRefresh(q, refresh.value, env)
  }

  function LogoutByRefresh(p: Phone, refresh: nat, env: Env): Phone {
    var (q, reply) := Rotate(p.(memory := None), refresh, env.refresh);
    match reply
    case Unauthorized => ClearSession(q, env)
    case Failed => Show(q, LogoutTransient)
    case Accepted => LogoutAgain(SaveTokens(q, q.version, env.save).(memory := Some(q.version)), env)
  }

  function LogoutAgain(p: Phone, env: Env): Phone {
    var (q, reply) := Revoke(p, env.second);
    if reply.Failed? then Show(q, if env.save.Saved? then LogoutTransient else LogoutStorage) else ClearSession(q, env)
  }

  // Stale refresh tokens.

  /** No token is ahead of the server, and what was rotated away is behind it. */
  ghost predicate Consistent(p: Phone) {
    && (p.access.Some? ==> p.access.value <= p.version)
    && (p.refresh.Some? ==> p.refresh.value <= p.version)
    && (p.memory.Some? ==> p.memory.value <= p.version)
    && AllBelow(p.rotated, p.version)
  }

  ghost predicate AllBelow(versions: set<nat>, version: nat) {
    forall v <- versions :: v < version
  }

  /** The store holds a refresh token that was rotated away at this phone's own request. */
  ghost predicate Stale(p: Phone) {
    p.refresh.Some? && p.refresh.value in p.rotated
  }

  // When the refresh token is sent, and when the server rotates it away.

  /** The phone when restoreSession may turn to the refresh token. */
  function RestoreBefore(p: Phone, env: Env): Phone {
    var q := p.(error := None);
    if env.readAccess && q.access.Some? then Me(q.(memory := q.access), env.first).0 else q
  }

  /** The access token is missing, unreadable or rejected. */
  predicate AccessFailed(p: Phone, env: Env) {
    env.readAccess && p.access.Some? ==> Me(p.(memory := p.access), env.first).1.Unauthorized?
  }

  predicate RestoreAsks(p: Phone, env: Env) {
    AccessFailed(p, env) && env.readRefresh && p.refresh.Some?
  }

  predicate RestoreRotates(p: Phone, env: Env) {
    RestoreAsks(p, env) && Accepts(RestoreBefore(p, env), p.refresh, env.refresh)
  }

  predicate LogoutAsks(p: Phone, env: Env) {
    Revoke(p, env.first).1.Unauthorized? && env.readRefresh && p.refresh.Some?
  }

  predicate LogoutRotates(p: Phone, env: Env) {
    LogoutAsks(p, env) && Accepts(Revoke(p, env.first).0, p.refresh, env.refresh)
  }

  /** The rotated-away token stays stored: its reply is lost, or the new pair is not saved and it is not deleted. */
  predicate RestoreStrands(p: Phone, env: Env) {
    RestoreRotates(p, env) && (env.refresh.delivery.ReplyLost? || (!env.save.Saved? && !env.deleteRefresh))
  }

  /** Likewise for logout, which deletes nothing unless the second revocation is answered. */
  predicate LogoutStrands(p: Phone, env: Env) {
    && LogoutRotates(p, env)
    && (|| env.refresh.delivery.ReplyLost?
        || (!env.save.Saved? && (!env.second.delivery.Delivered? || !env.deleteRefresh)))
  }

  // Every call keeps the versions consistent.

  /** What a phone may become without a rotation. */
  ghost predicate Follows(p: Phone, q: Phone) {
    && p.version <= q.version && q.rotated == p.rotated
    && (q.access.Some? ==> q.access.value <= q.version)
    && (q.refresh.Some? ==> q.refresh.value <= q.version)
    && (q.memory.Some? ==> q.memory.value <= q.version)
  }

  lemma FollowingIsConsistent(p: Phone, q: Phone)
    requires Consistent(p) && Follows(p, q)
    ensures Consistent(q)
  {
  }

  lemma RotatingIsConsistent(p: Phone, token: nat, a: Answer)
    requires Consistent(p)
    ensures Consistent(Rotate(p, token, a).0)
    ensures Accepts(p, Some(token), a) ==> token !in p.rotated && token in Rotate(p, token, a).0.rotated
  {
    var q := Rotate(p, token, a).0;
    forall v <- q.rotated ensures v < q.version {
    }
  }

  lemma IdentityFollows(p: Phone, env: Env)
    requires Consistent(p)
    ensures Follows(p, RestoreIdentity(p, env))
  {
  }

  lemma SavingFollows(p: Phone, save: Save)
    requires Consistent(p)
    ensures Follows(p, SaveTokens(p, p.version, save).(memory := Some(p.version)))
  {
  }

  lemma RefreshFailedFollows(p: Phone, env: Env)
    requires Consistent(p)
    ensures Follows(p, ClearMemory(ClearTokens(p, env))) && Follows(p, Show(ClearMemory(p), RestoreTransient))
    ensures Follows(p, Show(ClearMemory(ClearTokens(SaveTokens(p, p.version, env.save), env)), SecureStorage))
  {
  }

  lemma RestoreByRefreshKeepsConsistent(p: Phone, refresh: Option<nat>, env: Env)
    requires Consistent(p)
    ensures Consistent(RestoreByRefresh(p, refresh, env))
  {
    RefreshFailedFollows(p, env);
    if refresh.None? {
      FollowingIsConsistent(p, RestoreByRefresh(p, refresh, env));
    } else {
      var (q, reply) := Rotate(ClearMemory(p), refresh.value, env.refresh);
      RotatingIsConsistent(ClearMemory(p), refresh.value, env.refresh);
      RefreshFailedFollows(q, env);
      if reply.Accepted? && env.save.Saved? {
        var saved := SaveTokens(q, q.version, env.save).(memory := Some(q.version));
        SavingFollows(q, env.save);
        FollowingIsConsistent(q, saved);
        IdentityFollows(saved, env);
        FollowingIsConsistent(saved, RestoreIdentity(saved, env));
      } else {
        FollowingIsConsistent(q, RestoreByRefresh(p, refresh, env));
      }
    }
  }

  lemma BeforeFollows(p: Phone, env: Env)
    requires Consistent(p)
    ensures Consistent(RestoreBefore(p, env)) && Follows(p, RestoreBefore(p, env))
  {
    FollowingIsConsistent(p, RestoreBefore(p, env));
  }

  lemma RestoreAsking(p: Phone, env: Env)
    requires RestoreAsks(p, env)
    ensures Restore(p, env) == RestoreByRefresh(RestoreBefore(p, env), p.refresh, env)
  {
  }

  lemma RestoreNotAsking(p: Phone, env: Env)
    requires Consistent(p) && !RestoreAsks(p, env)
    ensures Follows(p, Restore(p, env)) && Restore(p, env).refresh in {p.refresh, None}
  {
  }

  /** restoreSession ends at once, or goes on with the refresh token. */
  lemma RestoreSplits(p: Phone, env: Env)
    requires Consistent(p)
    ensures RestoreAsks(p, env) ==> Restore(p, env) == RestoreByRefresh(RestoreBefore(p, env), p.refresh, env)
    ensures !RestoreAsks(p, env) ==> Follows(p, Restore(p, env)) && Restore(p, env).refresh in {p.refresh, None}
  {
    if RestoreAsks(p, env) {
      RestoreAsking(p, env);
    } else {
      RestoreNotAsking(p, env);
    }
  }

  lemma RestoreKeepsConsistent(p: Phone, env: Env)
    requires Consistent(p)
    ensures Consistent(Restore(p, env))
  {
    RestoreSplits(p, env);
    BeforeFollows(p, env);
    if RestoreAsks(p, env) {
      RestoreByRefreshKeepsConsistent(RestoreBefore(p, env), p.refresh, env);
    } else {
      FollowingIsConsistent(p, Restore(p, env));
    }
  }

  lemma LogoutAgainFollows(p: Phone, env: Env)
    requires Consistent(p)
    ensures Follows(p, LogoutAgain(p, env))
  {
  }

  lemma LogoutByRefreshKeepsConsistent(p: Phone, refresh: nat, env: Env)
    requires Consistent(p)
    ensures Consistent(LogoutByRefresh(p, refresh, env))
  {
    var (q, reply) := Rotate(p.(memory := None), refresh, env.refresh);
    RotatingIsConsistent(p.(memory := None), refresh, env.refresh);
    if reply.Accepted? {
      var saved := SaveTokens(q, q.version, env.save).(memory := Some(q.version));
      SavingFollows(q, env.save);
      FollowingIsConsistent(q, saved);
      LogoutAgainFollows(saved, env);
      FollowingIsConsistent(saved, LogoutAgain(saved, env));
    } else {
      FollowingIsConsistent(q, LogoutByRefresh(p, refresh, env));
    }
  }

  lemma LogoutAsking(p: Phone, env: Env)
    requires LogoutAsks(p, env)
    ensures Logout(p, env) == LogoutByRefresh(Revoke(p.(error := None), env.first).0, p.refresh.value, env)
  {
  }

  lemma LogoutNotAsking(p: Phone, env: Env)
    requires Consistent(p) && !LogoutAsks(p, env)
    ensures Follows(p, Logout(p, env))
  {
  }

  lemma LogoutKeepsConsistent(p: Phone, env: Env)
    requires Consistent(p)
    ensures Consistent(Logout(p, env))
  {
    if LogoutAsks(p, env) {
      var q := Revoke(p.(error := None), env.first).0;
      LogoutAsking(p, env);
      FollowingIsConsistent(p, q);
      LogoutByRefreshKeepsConsistent(q, p.refresh.value, env);
    } else {
      LogoutNotAsking(p, env);
      FollowingIsConsistent(p, Logout(p, env));
    }
  }

  // Stale tokens.

  lemma RestoreByRefreshStrands(p: Phone, refresh: nat, env: Env)
    requires Consistent(p) && !Stale(p) && p.refresh == Some(refresh)
    ensures Stale(RestoreByRefresh(p, p.refresh, env)) <==>
      (&& Accepts(p, p.refresh, env.refresh)
       && (env.refresh.delivery.ReplyLost? || (!env.save.Saved? && !env.deleteRefresh)))
  {
    RotatingIsConsistent(ClearMemory(p), refresh, env.refresh);
  }

  /**
   * restoreSession leaves a rotated-away refresh token stored exactly when it rotates
   * the token and the reply is lost, or saving and then deleting both fail.
   */
  lemma RestoreLeavesStaleIff(p: Phone, env: Env)
    requires Consistent(p) && !Stale(p)
    ensures Stale(Restore(p, env)) <==> RestoreStrands(p, env)
  {
    RestoreSplits(p, env);
    BeforeFollows(p, env);
    if RestoreAsks(p, env) {
      RestoreByRefreshStrands(RestoreBefore(p, env), p.refresh.value, env);
    }
  }

  lemma LogoutByRefreshStrands(p: Phone, refresh: nat, env: Env)
    requires Consistent(p) && !Stale(p) && p.refresh == Some(refresh) && p.error.None?
    ensures var q := LogoutByRefresh(p, refresh, env); var rotates := Accepts(p, p.refresh, env.refresh);
      && (Stale(q) <==> rotates && (env.refresh.delivery.ReplyLost?
                                    || (!env.save.Saved? && (!env.second.delivery.Delivered? || !env.deleteRefresh))))
      && (q.error == Some(LogoutStorage) <==>
          rotates && env.refresh.delivery.Delivered? && !env.save.Saved? && !env.second.delivery.Delivered?)
      && (q.error == Some(LogoutStorage) ==> q.memory.Some? && AllBelow(q.rotated, q.memory.value))
  {
    RotatingIsConsistent(p.(memory := None), refresh, env.refresh);
  }

  /**
   * logout leaves one exactly when it rotates the token and the reply is lost, or the
   * new pair is not saved and the old one not deleted.  If it keeps the session, the
   * storage error is shown for what was left, except after a lost reply; and with that
   * error the app still holds the newest access token, to log out again with.
   */
  lemma LogoutLeavesStaleIff(p: Phone, env: Env)
    requires Consistent(p) && !Stale(p)
    ensures var q := Logout(p, env);
      && (Stale(q) <==> LogoutStrands(p, env))
      && (q.error.Some? ==> (!Stale(q) || q.error == Some(LogoutStorage)
                             <==> !(LogoutRotates(p, env) && env.refresh.delivery.ReplyLost?)))
      && (q.error == Some(LogoutStorage) ==>
            Stale(q) && q.memory.Some? && AllBelow(q.rotated, q.memory.value))
  {
    var q := Revoke(p.(error := None), env.first).0;
    FollowingIsConsistent(p, q);
    if LogoutAsks(p, env) {
      LogoutByRefreshStrands(q, p.refresh.value, env);
    }
  }

  /** The server has ended the session but the phone was not told. */
  predicate RevocationLost(p: Phone, env: Env) {
    || (Accepts(p, p.memory, env.first) && env.first.delivery.ReplyLost?)
    || (&& LogoutRotates(p, env) && env.refresh.delivery.Delivered? && env.save.Saved?
        && !env.second.expired && env.second.delivery.ReplyLost?)
  }

  ghost predicate NobodyElse(env: Env) {
    env.first.advances == env.refresh.advances == env.second.advances == 0
  }

  /**
   * The same against the server, when no other device interferes: a logout that keeps
   * the session leaves the newest pair stored, or shows the storage error, exactly
   * unless a reply is lost to a call the server has carried out.
   */
  lemma LogoutKeepsNewestIff(p: Phone, env: Env)
    requires Consistent(p) && p.refresh == Some(p.version) && NobodyElse(env)
    ensures var q := Logout(p, env);
      q.error.Some? ==>
        (q.refresh == Some(q.version) || q.error == Some(LogoutStorage)
         <==> !(LogoutRotates(p, env) && env.refresh.delivery.ReplyLost?) && !RevocationLost(p, env))
  {
  }

  // Sessions kept and sessions lost.

  // Who is signed in, what is shown, and what is stored, in terms of what the outside did.

  /** The server takes a token of version `token` when it is at `version`, and the phone is told so. */
  predicate Takes(token: nat, version: nat, a: Answer) {
    token == version + a.advances && !a.expired && a.delivery == Delivered
  }

  /** The phone is told that the token is rejected. */
  predicate Rejects(token: nat, version: nat, a: Answer) {
    a.delivery == Delivered && !(token == version + a.advances && !a.expired)
  }

  /** An access token is stored and can be read. */
  predicate HasAccess(p: Phone, env: Env) { env.readAccess && p.access.Some? }

  predicate HasRefresh(p: Phone, env: Env) { env.readRefresh && p.refresh.Some? }

  /** The server's version before the refresh call of restoreSession. */
  function VersionSeen(p: Phone, env: Env): nat {
    p.version + if HasAccess(p, env) then env.first.advances else 0
  }

  /** The stored access token signs in. */
  predicate SignsInByAccess(p: Phone, env: Env) {
    HasAccess(p, env) && Takes(p.access.value, p.version, env.first)
  }

  /** There is no access token or it is rejected, so the stored refresh token is sent. */
  predicate SendsRefresh(p: Phone, env: Env) {
    && (HasAccess(p, env) ==> Rejects(p.access.value, p.version, env.first))
    && HasRefresh(p, env)
  }

  /** It is rotated, the new pair is saved, and the version does not move before the new access token is tried. */
  predicate RotatesAndSaves(p: Phone, env: Env) {
    SendsRefresh(p, env) && Takes(p.refresh.value, VersionSeen(p, env), env.refresh) && env.save == Saved
  }

  predicate SignsInByRefresh(p: Phone, env: Env) {
    RotatesAndSaves(p, env) && env.second.advances == 0 && !env.second.expired && env.second.delivery == Delivered
  }

  /** The message restoreSession shows. */
  function RestoreMessage(p: Phone, env: Env): Option<Problem> {
    if HasAccess(p, env) && env.first.delivery != Delivered then Some(RestoreTransient)
    else if !SendsRefresh(p, env) then None
    else if env.refresh.delivery != Delivered then Some(RestoreTransient)
    else if Rejects(p.refresh.value, VersionSeen(p, env), env.refresh) then None
    else if env.save != Saved then Some(SecureStorage)
    else if env.second.delivery != Delivered then Some(RestoreTransient)
    else None
  }

  /** How restoreSession begins. */
  lemma RestoreWays(p: Phone, env: Env)
    ensures var q := Restore(p, env);
      var before := p.(error := None, version := VersionSeen(p, env),
                       memory := if HasAccess(p, env) then p.access else p.memory);
      && (!HasAccess(p, env) && !HasRefresh(p, env) ==> q == ClearMemory(before))
      && (SignsInByAccess(p, env) ==> q == before.(user := true))
      && (HasAccess(p, env) && env.first.delivery != Delivered ==> q == Show(ClearMemory(before), RestoreTransient))
      && (SendsRefresh(p, env) ==> q == RestoreByRefresh(before, p.refresh, env))
      && (HasAccess(p, env) && Rejects(p.access.value, p.version, env.first) && !HasRefresh(p, env) ==>
            q == ClearMemory(ClearTokens(before, env)))
  {
  }

  /** How the rotation in restoreSession ends. */
  lemma RotationEnds(p: Phone, token: nat, env: Env)
    ensures var q := RestoreByRefresh(p, Some(token), env);
      var saved := Takes(token, p.version, env.refresh) && env.save == Saved;
      var taken := env.second.advances == 0 && !env.second.expired && env.second.delivery == Delivered;
      var pair := Some(token + 1);
      && (q.user <==> saved && taken) && (!q.user ==> q.memory.None?)
      && (saved && (taken || env.second.delivery != Delivered) ==>
            && q.access == pair && q.refresh == pair
            && q.error == (if taken then p.error else Some(RestoreTransient))
            && (taken ==> q.memory == pair && q.version == token + 1))
      && (saved && !taken && env.second.delivery == Delivered ==> q.error == p.error)
      && (!saved ==>
            q.error == if env.refresh.delivery != Delivered then Some(RestoreTransient)
                       else if Rejects(token, p.version, env.refresh) then p.error else Some(SecureStorage))
      && (env.refresh.delivery != Delivered ==> q.access == p.access && q.refresh == p.refresh)
      && (!(saved && (taken || env.second.delivery != Delivered)) && env.refresh.delivery == Delivered ==>
            (env.deleteAccess ==> q.access.None?) && (env.deleteRefresh ==> q.refresh.None?))
  {
  }

  /**
   * Exactly when restoreSession signs the user in: by the stored access token, or by the
   * rotated and saved pair.  Memory holds the token that was taken, and nothing otherwise.
   */
  lemma RestoreSignsInIff(p: Phone, env: Env)
    ensures var q := Restore(p, env);
      && (q.user <==> SignsInByAccess(p, env) || SignsInByRefresh(p, env))
      && (SignsInByAccess(p, env) ==>
            q.memory == p.access && q.access == p.access && q.refresh == p.refresh && q.version == p.access.value)
      && (SignsInByRefresh(p, env) ==>
            var pair := Some(p.refresh.value + 1);
            q.memory == pair && q.access == pair && q.refresh == pair && Some(q.version) == pair)
      && (!q.user ==> q.memory.None?)
  {
    RestoreWays(p, env);
    if SendsRefresh(p, env) {
      var before := p.(error := None, version := VersionSeen(p, env),
                       memory := if HasAccess(p, env) then p.access else p.memory);
      RotationEnds(before, p.refresh.value, env);
    }
  }

  /** Exactly which message restoreSession shows, if any. */
  lemma RestoreShows(p: Phone, env: Env)
    ensures Restore(p, env).error == RestoreMessage(p, env)
  {
    RestoreWays(p, env);
    if SendsRefresh(p, env) {
      var before := p.(error := None, version := VersionSeen(p, env),
                       memory := if HasAccess(p, env) then p.access else p.memory);
      RotationEnds(before, p.refresh.value, env);
    }
  }

  /**
   * What restoreSession leaves stored when it does not sign in: a transient failure keeps
   * what was stored, or the pair that was saved; anything else deletes both tokens, as
   * far as deleting works, unless neither could be read to begin with.
   */
  lemma RestoreStores(p: Phone, env: Env)
    requires !SignsInByAccess(p, env) && !SignsInByRefresh(p, env)
    ensures var q := Restore(p, env);
      if q.error == Some(RestoreTransient) then
        if RotatesAndSaves(p, env) then q.access == q.refresh == Some(p.refresh.value + 1)
        else q.access == p.access && q.refresh == p.refresh
      else if !HasAccess(p, env) && !HasRefresh(p, env) then q.access == p.access && q.refresh == p.refresh
      else (env.deleteAccess ==> q.access.None?) && (env.deleteRefresh ==> q.refresh.None?)
  {
    RestoreWays(p, env);
    if SendsRefresh(p, env) {
      var before := p.(error := None, version := VersionSeen(p, env),
                       memory := if HasAccess(p, env) then p.access else p.memory);
      RotationEnds(before, p.refresh.value, env);
    }
  }

  /** The first revocation of logout is rejected and the stored refresh token is sent. */
  predicate LogoutSendsRefresh(p: Phone, env: Env) {
    && env.first.delivery == Delivered
    && !(p.memory.Some? && Takes(p.memory.value, p.version, env.first))
    && HasRefresh(p, env)
  }

  /** The message logout shows. */
  function LogoutMessage(p: Phone, env: Env): Option<Problem> {
    if env.first.delivery != Delivered then Some(LogoutTransient)
    else if !LogoutSendsRefresh(p, env) then None
    else if env.refresh.delivery != Delivered then Some(LogoutTransient)
    else if Rejects(p.refresh.value, p.version + env.first.advances, env.refresh) then None
    else if env.second.delivery == Delivered then None
    else if env.save == Saved then Some(LogoutTransient)
    else Some(LogoutStorage)
  }

  /**
   * Exactly which message logout shows.  Without one the user is signed out: no user, no
   * token in memory, and none stored as far as deleting works.  With one the user is still
   * shown, and the stored tokens are there, or the new pair as far as it was saved.
   */
  lemma LogoutShows(p: Phone, env: Env)
    ensures var q := Logout(p, env);
      && q.error == LogoutMessage(p, env)
      && (q.error.None? ==>
            && !q.user && q.memory.None?
            && (env.deleteAccess ==> q.access.None?) && (env.deleteRefresh ==> q.refresh.None?))
      && (q.error.Some? ==> q.user == p.user)
      && (env.first.delivery != Delivered ==> q.memory == p.memory && q.access == p.access && q.refresh == p.refresh)
      && (env.first.delivery == Delivered && q.error.Some? && env.refresh.delivery != Delivered ==>
            q.memory.None? && q.access == p.access && q.refresh == p.refresh)
      && (env.first.delivery == Delivered && q.error.Some? && env.refresh.delivery == Delivered ==>
            var pair := Some(p.refresh.value + 1);
            && q.memory == pair && q.access == (if env.save == AccessFails then p.access else pair)
            && q.refresh == (if env.save == Saved then pair else p.refresh))
  {
  }

  /**
   * A session shown after restoreSession: server, memory and the stored access token have
   * the same version.  The stored refresh token is of that version as well if it was used,
   * and otherwise as it was: of that version, older, or missing.
   */
  lemma RestoredSessionIsCurrent(p: Phone, env: Env)
    ensures var q := Restore(p.(user := false), env);
      q.user ==>
        && q.memory == Some(q.version) && q.access == Some(q.version) && q.error.None?
        && q.refresh == if RestoreAsks(p, env) then Some(q.version) else p.refresh
  {
  }

  /** A rejection makes restoreSession delete a current refresh token: unread, expired, or just rotated in. */
  predicate RestoreRejects(p: Phone, env: Env) {
    || (env.readAccess && p.access.Some? && AccessFailed(p, env) && !env.readRefresh)
    || (RestoreAsks(p, env) && env.refresh.expired && env.refresh.delivery.Delivered?)
    || (&& RestoreRotates(p, env) && env.refresh.delivery.Delivered? && env.save.Saved?
        && env.second.expired && env.second.delivery.Delivered?)
  }

  /**
   * When no other device interferes, a current refresh token stays current through
   * restoreSession exactly unless its rotation is not answered or not saved, or a
   * rejection has it deleted.
   */
  lemma RestoreKeepsCurrentIff(p: Phone, env: Env)
    requires Consistent(p) && p.refresh == Some(p.version) && NobodyElse(env)
    ensures var q := Restore(p, env);
      q.refresh == Some(q.version) <==>
        !(RestoreRotates(p, env) && (env.refresh.delivery.ReplyLost? || !env.save.Saved?))
        && !(RestoreRejects(p, env) && env.deleteRefresh)
  {
    RestoreSplits(p, env);
    if RestoreAsks(p, env) {
      RefreshKeepsCurrentIff(RestoreBefore(p, env), p.version, env);
    }
  }

  lemma RefreshKeepsCurrentIff(p: Phone, refresh: nat, env: Env)
    requires p.refresh == Some(refresh) && refresh == p.version && NobodyElse(env)
    ensures var q := RestoreByRefresh(p, p.refresh, env); var rotates := Accepts(p, p.refresh, env.refresh);
      q.refresh == Some(q.version) <==>
        && !(rotates && (env.refresh.delivery.ReplyLost? || !env.save.Saved?))
        && !(env.deleteRefresh && env.refresh.expired && env.refresh.delivery.Delivered?)
        && !(env.deleteRefresh && rotates && env.refresh.delivery.Delivered? && env.save.Saved?
             && env.second.expired && env.second.delivery.Delivered?)
  {
  }

  /**
   * Of outages alone only one costs a current session: the lost reply to the refresh
   * call.  (Tokens live, storage works, no other device interferes.)
   */
  lemma OutageKeepsSession(p: Phone, env: Env)
    requires Consistent(p) && p.refresh == Some(p.version) && env.readRefresh && env.save.Saved?
    requires NobodyElse(env) && !env.refresh.expired && !env.second.expired
    ensures Restore(p, env).refresh == Some(Restore(p, env).version) <==>
      !(RestoreAsks(p, env) && env.refresh.delivery.ReplyLost?)
  {
    RestoreKeepsCurrentIff(p, env);
  }

  /**
   * restoreSession erases a refresh token of a version the server has not advanced
   * exactly when the delete works and a rejected access token meets an unreadable refresh
   * token, or the refresh token is rejected as expired.
   */
  lemma RestoreErasesCurrentIff(p: Phone, env: Env)
    requires Consistent(p) && p.refresh == Some(p.version)
    ensures var q := Restore(p, env);
      q.refresh.None? && q.version == p.version <==>
        && env.deleteRefresh && RestoreBefore(p, env).version == p.version && AccessFailed(p, env)
        && (|| (!env.readRefresh && env.readAccess && p.access.Some?)
            || (env.readRefresh && env.refresh == Answer(0, true, Delivered)))
  {
    RestoreSplits(p, env);
    if RestoreAsks(p, env) {
      RefreshErasesIff(RestoreBefore(p, env), env);
    }
  }

  lemma RefreshErasesIff(p: Phone, env: Env)
    requires p.refresh.Some? && p.refresh.value <= p.version
    ensures var q := RestoreByRefresh(p, p.refresh, env);
      && q.version >= p.version
      && (p.refresh == Some(p.version) ==>
          (q.refresh.None? && q.version == p.version <==>
           env.deleteRefresh && env.refresh == Answer(0, true, Delivered)))
  {
  }

  /** logout gives up without a message on a refresh token of a version the server has not advanced. */
  predicate LogoutAbandons(p: Phone, env: Env) {
    && Revoke(p, env.first).1.Unauthorized? && env.first.advances == 0
    && (!env.readRefresh || env.refresh == Answer(0, true, Delivered))
  }

  /**
   * logout forgets the session without showing a problem only when none of it is left
   * on the server, with one exception, exactly stated: its first call is rejected, and
   * the stored refresh token cannot be read or has expired.  The token in memory is left
   * behind only if it had expired.
   */
  lemma LogoutForgetsOnlyDeadSessions(p: Phone, env: Env)
    requires Consistent(p)
    ensures var q := Logout(p, env);
      q.error.None? ==>
        && (p.refresh.Some? ==>
            (p.refresh.value < q.version <==> !(p.refresh == Some(p.version) && LogoutAbandons(p, env))))
        && (p.memory.Some? ==> p.memory.value < q.version || env.first.expired)
  {
    var q := Revoke(p.(error := None), env.first).0;
    if LogoutAsks(p, env) {
      LogoutByRefreshForgets(q, p.refresh.value, env);
    }
  }

  lemma LogoutByRefreshForgets(p: Phone, refresh: nat, env: Env)
    requires refresh <= p.version
    ensures var q := LogoutByRefresh(p.(error := None), refresh, env);
      && p.version <= q.version
      && (q.error.None? ==>
          (refresh < q.version <==> !(refresh == p.version && env.refresh == Answer(0, true, Delivered))))
  {
  }

  // Runs.

  /** Signing in anew is not part of these runs; a restart loses what is in memory. */
  datatype Op = RestoreSession(env: Env) | SignOut(env: Env) | Restart

  function Do(p: Phone, op: Op): Phone {
    match op
    case RestoreSession(env) => Restore(p, env)
    case SignOut(env) => Logout(p, env)
    case Restart => ClearMemory(p).(error := None)
  }

  function DoAll(p: Phone, ops: seq<Op>): Phone {
    if ops == [] then p else Do(DoAll(p, ops[..|ops| - 1]), ops[|ops| - 1])
  }

  predicate Strands(p: Phone, op: Op) {
    match op
    case RestoreSession(env) => RestoreStrands(p, env)
    case SignOut(env) => LogoutStrands(p, env)
    case Restart => false
  }

  lemma StepKeepsConsistent(p: Phone, op: Op)
    requires Consistent(p)
    ensures Consistent(Do(p, op))
  {
    match op
    case RestoreSession(env) => RestoreKeepsConsistent(p, env);
    case SignOut(env) => LogoutKeepsConsistent(p, env);
    case Restart =>
  }

  lemma {:induction false} RunKeepsConsistent(p: Phone, ops: seq<Op>)
    requires Consistent(p)
    ensures Consistent(DoAll(p, ops))
    decreases |ops|
  {
    if ops != [] {
      RunKeepsConsistent(p, ops[..|ops| - 1]);
      StepKeepsConsistent(DoAll(p, ops[..|ops| - 1]), ops[|ops| - 1]);
    }
  }

  lemma StepLeavesStaleIff(p: Phone, op: Op)
    requires Consistent(p) && !Stale(p)
    ensures Stale(Do(p, op)) <==> Strands(p, op)
  {
    match op
    case RestoreSession(env) => RestoreLeavesStaleIff(p, env);
    case SignOut(env) => LogoutLeavesStaleIff(p, env);
    case Restart =>
  }

  /** Only a current token is rotated. */
  lemma StrandsFromCurrent(p: Phone, op: Op)
    requires Consistent(p) && Strands(p, op)
    ensures !Stale(p)
  {
    if op.RestoreSession? {
      BeforeFollows(p, op.env);
    }
  }

  ghost predicate OnceStale(p: Phone, ops: seq<Op>) {
    exists m :: 0 <= m <= |ops| && Stale(DoAll(p, ops[..m]))
  }

  ghost predicate OnceStranded(p: Phone, ops: seq<Op>) {
    exists n :: 0 <= n < |ops| && Strands(DoAll(p, ops[..n]), ops[n])
  }

  /**
   * Over any run of restores, logouts and restarts, whatever fails: the store ever holds
   * a rotated-away refresh token exactly if some operation of the run strands one.
   */
  lemma StaleIffStranded(p: Phone, ops: seq<Op>)
    requires Consistent(p) && !Stale(p)
    ensures OnceStale(p, ops) <==> OnceStranded(p, ops)
  {
    if OnceStale(p, ops) {
      var m :| 0 <= m <= |ops| && Stale(DoAll(p, ops[..m]));
      var n := FirstStranded(p, ops, m);
    }
    if OnceStranded(p, ops) {
      var n :| 0 <= n < |ops| && Strands(DoAll(p, ops[..n]), ops[n]);
      RunKeepsConsistent(p, ops[..n]);
      StrandsFromCurrent(DoAll(p, ops[..n]), ops[n]);
      StepLeavesStaleIff(DoAll(p, ops[..n]), ops[n]);
      DoOneMore(p, ops, n);
    }
  }

  lemma DoOneMore(p: Phone, ops: seq<Op>, n: nat)
    requires n < |ops|
    ensures DoAll(p, ops[..n + 1]) == Do(DoAll(p, ops[..n]), ops[n])
  {
    assert ops[..n + 1][..n] == ops[..n];
  }

  lemma {:induction false} FirstStranded(p: Phone, ops: seq<Op>, m: nat) returns (n: nat)
    requires Consistent(p) && !Stale(p) && m <= |ops| && Stale(DoAll(p, ops[..m]))
    ensures n < m && Strands(DoAll(p, ops[..n]), ops[n])
  {
    assert m > 0;
    DoOneMore(p, ops, m - 1);
    RunKeepsConsistent(p, ops[..m - 1]);
    if Stale(DoAll(p, ops[..m - 1])) {
      n := FirstStranded(p, ops, m - 1);
    } else {
      StepLeavesStaleIff(DoAll(p, ops[..m - 1]), ops[m - 1]);
      n := m - 1;
    }
  }

  predicate DeletesWork(op: Op) {
    op.Restart? || op.env.deleteRefresh
  }

  /** The reply to a rotation is lost. */
  predicate LosesRotation(p: Phone, op: Op) {
    match op
    case RestoreSession(env) => RestoreRotates(p, env) && env.refresh.delivery.ReplyLost?
    case SignOut(env) => LogoutRotates(p, env) && env.refresh.delivery.ReplyLost?
    case Restart => false
  }

  /** How a rotated-away token can come to be stored when deletes work; the second way is not shown as what it is. */
  ghost predicate StorageErrorOrLostReply(p: Phone, op: Op) {
    (op.SignOut? && Do(p, op).error == Some(LogoutStorage)) || LosesRotation(p, op)
  }

  lemma StrandsWhenDeletesWork(p: Phone, op: Op)
    requires Consistent(p) && DeletesWork(op) && Strands(p, op)
    ensures StorageErrorOrLostReply(p, op)
  {
    StrandsFromCurrent(p, op);
    if op.SignOut? {
      LogoutLeavesStaleIff(p, op.env);
    }
  }

  /**
   * With working deletes, a rotated-away refresh token is in the store only if some
   * logout of the run ended by showing the storage error or the reply to a rotation was
   * lost.
   */
  lemma StaleOnlyAfterStorageErrorOrLostReply(p: Phone, ops: seq<Op>)
    requires Consistent(p) && !Stale(p) && forall op <- ops :: DeletesWork(op)
    ensures Stale(DoAll(p, ops)) ==>
      exists n :: 0 <= n < |ops| && StorageErrorOrLostReply(DoAll(p, ops[..n]), ops[n])
  {
    if Stale(DoAll(p, ops)) {
      assert ops[..|ops|] == ops;
      var n := FirstStranded(p, ops, |ops|);
      RunKeepsConsistent(p, ops[..n]);
      assert ops[n] in ops;
      StrandsWhenDeletesWork(DoAll(p, ops[..n]), ops[n]);
    }
  }

  /**
   * The storage error does not last: no further logout shows it again while the token
   * stays stored.  One that keeps the session shows the transient error in its place.
   */
  lemma SecondLogoutHidesStorageError(p: Phone, env: Env)
    requires Consistent(p) && Stale(p)
    ensures var q := Logout(p, env);
      q.error != Some(LogoutStorage) && (q.error.Some? ==> q.error == Some(LogoutTransient) && Stale(q))
  {
  }

  // The program.

  /** The auth context of the running app, the secure store, and the server's session version. */
  class AuthContext {
    var version: nat
    var access: Option<nat>
    var refresh: Option<nat>
    var memory: Option<nat>
    var user: bool
    var loading: bool
    var error: Option<Problem>
    ghost var rotated: set<nat>

    ghost function View(): Phone
      reads this
    {
      Phone(version, access, refresh, memory, user, error, rotated)
    }

    constructor (version: nat, access: Option<nat>, refresh: Option<nat>)
      ensures View() == Phone(version, access, refresh, None, false, None, {}) && !loading
    {
      this.version, this.access, this.refresh := version, access, refresh;
      memory, user, loading, error, rotated := None, false, false, None, {};
    }

    method CallMe(a: Answer) returns (reply: Reply)
      modifies this
      ensures (View(), reply) == Me(old(View()), a) && loading == old(loading)
    {
      version := version + a.advances;
      var accepted := memory == Some(version) && !a.expired && !a.delivery.Unreachable?;
      reply := ReplyTo(accepted, a);
    }

    method CallLogout(a: Answer) returns (reply: Reply)
      modifies this
      ensures (View(), reply) == Revoke(old(View()), a) && loading == old(loading)
    {
      version := version + a.advances;
      var accepted := memory == Some(version) && !a.expired && !a.delivery.Unreachable?;
      if accepted {
        version := version + 1;
      }
      reply := ReplyTo(accepted, a);
    }

    method CallRefresh(token: nat, a: Answer) returns (reply: Reply)
      modifies this
      ensures (View(), reply) == Rotate(old(View()), token, a) && loading == old(loading)
    {
      version := version + a.advances;
      var accepted := token == version && !a.expired && !a.delivery.Unreachable?;
      if accepted {
        version := version + 1;
      }
      rotated := rotated + if accepted then {token} else {};
      reply := ReplyTo(accepted, a);
    }

    /** saveTokens: the access token first, then the refresh token. */
    method Save(pair: nat, save: Save) returns (saved: bool)
      modifies this
      ensures View() == SaveTokens(old(View()), pair, save) && saved == save.Saved? && loading == old(loading)
    {
      if save.AccessFails? {
        return false;
      }
      access := Some(pair);
      if save.RefreshFails? {
        return false;
      }
      refresh := Some(pair);
      return true;
    }

    method Clear(env: Env)
      modifies this
      ensures View() == ClearTokens(old(View()), env) && loading == old(loading)
    {
      if env.deleteAccess {
        access := None;
      }
      if env.deleteRefresh {
        refresh := None;
      }
    }

    method ClearInMemorySession()
      modifies this
      ensures View() == ClearMemory(old(View())) && loading == old(loading)
    {
      user, memory := false, None;
    }

    method ClearWholeSession(env: Env)
      modifies this
      ensures View() == ClearSession(old(View()), env) && loading == old(loading)
    {
      ClearInMemorySession();
      error := None;
      Clear(env);
    }

    method RestoreSession(env: Env)
      modifies this
      ensures View() == Restore(old(View()), env) && !loading
      ensures user <==> SignsInByAccess(old(View()), env) || SignsInByRefresh(old(View()), env)
      ensures error == RestoreMessage(old(View()), env)
    {
      RestoreSignsInIff(View(), env);
      RestoreShows(View(), env);
      loading, error := true, None;
      RestoreStored(env);
      loading := false;
    }

    method RestoreStored(env: Env)
      requires error.None?
      modifies this
      ensures View() == Restore(old(View()), env)
    {
      var storedAccess := if env.readAccess then access else None;
      var storedRefresh := if env.readRefresh then refresh else None;
      if storedAccess.None? && storedRefresh.None? {
        ClearInMemorySession();
        return;
      }
      if storedAccess.Some? {
        memory := storedAccess;
        var me := CallMe(env.first);
        if me.Accepted? {
          user := true;
          return;
        }
        if !me.Unauthorized? {
          ClearInMemorySession();
          error := Some(RestoreTransient);
          return;
        }
      }
      RestoreRotating(storedRefresh, env);
    }

    method RestoreRotating(storedRefresh: Option<nat>, env: Env)
      modifies this
      ensures View() == RestoreByRefresh(old(View()), storedRefresh, env)
    {
      if storedRefresh.None? {
        Clear(env);
        ClearInMemorySession();
        return;
      }
      ClearInMemorySession();
      var rotation := CallRefresh(storedRefresh.value, env.refresh);
      if rotation.Unauthorized? {
        Clear(env);
        ClearInMemorySession();
        return;
      }
      if rotation.Failed? {
        ClearInMemorySession();
        error := Some(RestoreTransient);
        return;
      }
      var pair := version;
      var saved := Save(pair, env.save);
      if !saved {
        Clear(env);
        ClearInMemorySession();
        error := Some(SecureStorage);
        return;
      }
      memory := Some(pair);
      var me := CallMe(env.second);
      if me.Accepted? {
        user := true;
      } else if me.Unauthorized? {
        Clear(env);
        ClearInMemorySession();
      } else {
        ClearInMemorySession();
        error := Some(RestoreTransient);
      }
    }

    method SignOut(env: Env)
      modifies this
      ensures View() == Logout(old(View()), env)
      ensures error == LogoutMessage(old(View()), env) && (error.None? ==> !user && memory.None?)
    {
      LogoutShows(View(), env);
      error := None;
      var reply := CallLogout(env.first);
      if reply.Accepted? {
        ClearWholeSession(env);
        return;
      }
      if !reply.Unauthorized? {
        error := Some(LogoutTransient);
        return;
      }
      var storedRefresh := if env.readRefresh then refresh else None;
      if storedRefresh.None? {
        ClearWholeSession(env);
        return;
      }
      SignOutRotating(storedRefresh.value, env);
    }

    method SignOutRotating(storedRefresh: nat, env: Env)
      modifies this
      ensures View() == LogoutByRefresh(old(View()), storedRefresh, env)
    {
      memory := None;
      var rotation := CallRefresh(storedRefresh, env.refresh);
      if rotation.Unauthorized? {
        ClearWholeSession(env);
        return;
      }
      if rotation.Failed? {
        error := Some(LogoutTransient);
        return;
      }
      var pair := version;
      var persisted := Save(pair, env.save);
      memory := Some(pair);
      var reply := CallLogout(env.second);
      if !reply.Failed? {
        ClearWholeSession(env);
        return;
      }
      error := Some(if persisted then LogoutTransient else LogoutStorage);
    }
  }
}
