/** One cached sign-in, and what one answer of the token endpoint does to it. */
module Sessions {
  import opened Wrappers

  /** An access token that close to its expiry, in seconds, counts as spent. */
  const SESSION_TOKEN_MARGIN := 60

  /** The session file's content. A token is a number and 0 is the empty string; `expires` is the
      access token's own expiry, and None is Go's zero time. */
  datatype Session = Session(refresh: nat, access: nat, expires: Option<int>)

  /** A 200 answer of the token endpoint, as decoded: 0 is an absent token. */
  datatype Answer = Answer(access: nat, refresh: nat, expiresIn: int)

  /** The access token in hand is worth presenting: present, with a known expiry, and more than the
      margin away from it. */
  predicate LiveToken(session: Session, now: int) {
    && session.access != 0
    && session.expires.Some?
    && session.expires.value - now > SESSION_TOKEN_MARGIN
  }

  function ExpiryOf(answer: Answer, now: int): Option<int> {
    if answer.expiresIn > 0 then Some(now + answer.expiresIn) else None
  }

  /** The session as it should be kept after an answer received at `now`. */
  function Rewritten(session: Session, answer: Answer, now: int): Session {
    Session(
      if answer.refresh != 0 then answer.refresh else session.refresh,
      if answer.expiresIn > 0 then answer.access else 0,
      ExpiryOf(answer, now))
  }

  /** What a reader of the file can rely on after a mint. The access token there is the one just granted,
      with its own expiry, when the answer says how long it lives, and none otherwise, so there never is
      one that nothing can judge; the refresh token is the rotated one; and the access token reads as live
      exactly while its granted lifetime is more than the margin away. */
  lemma RewrittenIsJudgeable(session: Session, answer: Answer, received: int, now: int)
    requires received <= now
    ensures var kept := Rewritten(session, answer, received);
      && (answer.expiresIn > 0 ==> kept.access == answer.access && kept.expires == Some(received + answer.expiresIn))
      && (answer.expiresIn <= 0 ==> kept.access == 0 && kept.expires == None)
      && (answer.refresh != 0 ==> kept.refresh == answer.refresh)
      && (answer.refresh == 0 ==> kept.refresh == session.refresh)
      && (LiveToken(kept, now) <==>
          answer.access != 0 && answer.expiresIn > 0 && now < received + answer.expiresIn - 60)
  {
  }

  /** The session file, replaced whole by a rename. */
  class SessionFile {
    var stored: Session
    /** How many times the file was replaced. */
    var writes: nat

    constructor (session: Session)
      ensures stored == session && writes == 0
    {
      stored, writes := session, 0;
    }

    /** The half of mintSessionToken after a 200 answer: keep the rotated refresh token, keep the
        access token only when its lifetime is known, and write only when something changed. */
    method Mint(session: Session, answer: Answer, now: int) returns (token: nat, expires: Option<int>)
      modifies this
      ensures token == answer.access
      ensures expires == if answer.expiresIn > 0 then Some(now + answer.expiresIn) else None
      ensures old(stored) == session && answer.expiresIn > 0 ==>
        stored.access == answer.access && stored.expires == Some(now + answer.expiresIn)
      ensures old(stored) == session && answer.expiresIn <= 0 ==> stored.access == 0 && stored.expires == None
      ensures old(stored) == session ==>
        stored.refresh == (if answer.refresh != 0 then answer.refresh else session.refresh)
        && writes == old(writes) + (if stored != session then 1 else 0)
      ensures Rewritten(session, answer, now) == session ==> stored == old(stored) && writes == old(writes)
      ensures Rewritten(session, answer, now) != session ==>
        stored == Rewritten(session, answer, now) && writes == old(writes) + 1
    {
      token, expires := answer.access, None;
      if answer.expiresIn > 0 {
        expires := Some(now + answer.expiresIn);
      }

      var kept := session;
      var rotated := answer.refresh != 0 && answer.refresh != session.refresh;
      if rotated {
        kept := kept.(refresh := answer.refresh);
      }

      var held, heldUntil := session.access, session.expires;
      kept := kept.(access := 0, expires := None);
      if expires.Some? {
        kept := kept.(access := answer.access, expires := expires);
      }
      if rotated || kept.access != held || kept.expires != heldUntil {
        stored, writes := kept, writes + 1;
      }
    }
  }
}
