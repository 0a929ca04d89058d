/**
 * The registry of live IMAP/SMTP sessions (src/models/Session.ts): a static array of
 * sessions, looked up by token, connected by e-mail address, and truncated by `destroy`.
 */
module Sessions {
  import opened Outcomes
  import opened Registry

  /** An opened protocol handle (an `Imap` connection or an SMTP transporter), known by its identity. */
  type Handle = nat

  /** The two handles opening a session yields once both are ready. */
  datatype Handles = Handles(imapHandle: Handle, smtpHandle: Handle)

  /** One session: its token, the owner's address and its two handles. */
  datatype Session = Session(token: string, email: string, imapHandle: Handle, smtpHandle: Handle)

  /** The tokens of the sessions, in order. */
  function Tokens(s: seq<Session>): (r: seq<string>)
    ensures |r| == |s| && forall k :: 0 <= k < |s| ==> r[k] == s[k].token
  {
    seq(|s|, k requires 0 <= k < |s| => s[k].token)
  }

  /** The e-mail addresses of the sessions, in order. */
  function Emails(s: seq<Session>): (r: seq<string>)
    ensures |r| == |s| && forall k :: 0 <= k < |s| ==> r[k] == s[k].email
  {
    seq(|s|, k requires 0 <= k < |s| => s[k].email)
  }

  /** The IMAP handles `destroyAll` ends: only the first session's. */
  function EndedByDestroyAll(s: seq<Session>): (r: set<Handle>)
    ensures |r| <= 1
    ensures r <= ImapHandles(s)
    ensures s != [] ==> s[0].imapHandle in r
  {
    if s == [] then {} else {s[0].imapHandle}
  }

  /** Every IMAP handle of the sessions. */
  function ImapHandles(s: seq<Session>): (r: set<Handle>)
    ensures forall k :: 0 <= k < |s| ==> s[k].imapHandle in r
    ensures forall h :: h in r ==> exists k :: 0 <= k < |s| && s[k].imapHandle == h
  {
    set k | 0 <= k < |s| :: s[k].imapHandle
  }

  /**
   * `destroyAll` as written leaves open the IMAP handle of every session but the first:
   * with two sessions on different handles, the second handle is never ended.
   */
  lemma DestroyAllLeaks(s: seq<Session>)
    requires |s| >= 2 && s[1].imapHandle != s[0].imapHandle
    ensures s[1].imapHandle !in EndedByDestroyAll(s)
    ensures s[1].imapHandle in ImapHandles(s)
  {
  }

  /** The IMAP handles from index `i` on are that session's and those after it. */
  lemma ImapHandlesFrom(s: seq<Session>, i: nat)
    requires i < |s|
    ensures ImapHandles(s[i..]) == {s[i].imapHandle} + ImapHandles(s[i + 1..])
  {
    assert s[i..][0] == s[i];
    forall h | h in ImapHandles(s[i..]) ensures h in {s[i].imapHandle} + ImapHandles(s[i + 1..]) {
      var k :| 0 <= k < |s[i..]| && s[i..][k].imapHandle == h;
      if k > 0 {
        assert s[i + 1..][k - 1] == s[i..][k];
      }
    }
    forall h | h in ImapHandles(s[i + 1..]) ensures h in ImapHandles(s[i..]) {
      var k :| 0 <= k < |s[i + 1..]| && s[i + 1..][k].imapHandle == h;
      assert s[i..][k + 1] == s[i + 1..][k];
    }
  }

  /** Cutting the sessions before index `i` cuts their tokens there too. */
  lemma TokensPrefix(s: seq<Session>, i: nat)
    requires i <= |s|
    ensures Tokens(s[..i]) == Tokens(s)[..i]
  {
  }

  /** After `destroy(token)` removes the session holding it, no session holds it any more, so destroying again is a no-op. */
  lemma DestroyAgainIsNoOp(s: seq<Session>, token: string, i: nat)
    requires FirstIndex(Tokens(s), token) == Some(i)
    ensures FirstIndex(Tokens(s[..i]), token) == None
  {
    TokensPrefix(s, i);
    FirstIndexPrefix(Tokens(s), token, i);
  }

  /** The static `Session.instances` array and the set of IMAP handles that have been ended. */
  class SessionRegistry {
    var instances: seq<Session>
    ghost var ended: set<Handle>

    /** Tokens identify sessions: no two live sessions share one. */
    ghost predicate Valid()
      reads this
    {
      Distinct(Tokens(instances))
    }

    constructor ()
      ensures Valid() && instances == [] && ended == {}
    {
      instances := [];
      ended := {};
    }

    /** `Session.get`: the first session with this token, if any. */
    function Get(token: string): (r: Option<Session>)
      reads this
      ensures r.Some? <==> token in Tokens(instances)
      ensures r.Some? ==> exists i :: FirstIndex(Tokens(instances), token) == Some(i) && r.value == instances[i]
      ensures r.Some? ==> r.value.token == token
    {
      match FirstIndex(Tokens(instances), token)
      case None => None
      case Some(i) => Some(instances[i])
    }

    /** `Session.has`: some session holds this token. */
    function Has(token: string): (r: bool)
      reads this
      ensures r <==> exists k :: 0 <= k < |instances| && instances[k].token == token
      ensures r <==> Get(token).Some?
    {
      token in Tokens(instances)
    }

    /**
     * The `do … while` of `Session.create`: draws tokens from the generator's output
     * `uuids` until one is held by no session. It returns the token and how many were drawn.
     */
    method FreshToken(uuids: seq<string>) returns (token: string, drawn: nat)
      requires exists k :: 0 <= k < |uuids| && uuids[k] !in Tokens(instances)
      ensures 1 <= drawn <= |uuids| && token == uuids[drawn - 1]
      ensures !Has(token)
      ensures forall k :: 0 <= k < drawn - 1 ==> Has(uuids[k])
    {
      token := uuids[0];
      drawn := 1;
      while Has(token)
        invariant 1 <= drawn <= |uuids| && token == uuids[drawn - 1]
        invariant forall k :: 0 <= k < drawn - 1 ==> Has(uuids[k])
        invariant exists k :: drawn - 1 <= k < |uuids| && uuids[k] !in Tokens(instances)
        decreases |uuids| - drawn
      {
        token := uuids[drawn];
        drawn := drawn + 1;
      }
    }

    /**
     * `Session.create`. `ready` is the outcome of opening both handles (the first
     * rejection, or both handles); on success a fresh token is drawn from `uuids` and the
     * new session is appended, so `get` of its token returns it at once.
     */
    method Create(email: string, ready: Result<Handles>, uuids: seq<string>) returns (r: Result<Session>)
      requires Valid()
      requires ready.Ok? ==> exists k :: 0 <= k < |uuids| && uuids[k] !in Tokens(instances)
      modifies this
      ensures Valid() && ended == old(ended)
      ensures ready.Err? ==> r == Err(ready.message) && instances == old(instances)
      ensures ready.Ok? ==>
                && r.Ok? && instances == old(instances) + [r.value]
                && r.value == Session(r.value.token, email, ready.value.imapHandle, ready.value.smtpHandle)
                && r.value.token in uuids && r.value.token !in Tokens(old(instances))
                && Get(r.value.token) == Some(r.value)
    {
      if ready.Err? {
        return Err(ready.message);
      }
      var token, _ := FreshToken(uuids);
      var session := Session(token, email, ready.value.imapHandle, ready.value.smtpHandle);
      FirstIndexOfAppended(Tokens(instances), token);
      assert Tokens(instances + [session]) == Tokens(instances) + [token];
      instances := instances + [session];
      r := Ok(session);
    }

    /**
     * `Session.connect`: the first session of this address if there is one, unchanged;
     * otherwise `create`.
     */
    method Connect(email: string, ready: Result<Handles>, uuids: seq<string>) returns (r: Result<Session>)
      requires Valid()
      requires ready.Ok? ==> exists k :: 0 <= k < |uuids| && uuids[k] !in Tokens(instances)
      modifies this
      ensures Valid() && ended == old(ended)
      ensures email in Emails(old(instances)) ==>
                && instances == old(instances)
                && r == Ok(old(instances)[FirstIndex(Emails(old(instances)), email).value])
      ensures email !in Emails(old(instances)) && ready.Err? ==>
                r == Err(ready.message) && instances == old(instances)
      ensures email !in Emails(old(instances)) && ready.Ok? ==>
                && r.Ok? && instances == old(instances) + [r.value] && r.value.email == email
                && r.value.token !in Tokens(old(instances))
    {
      var i := FirstIndex(Emails(instances), email);
      if i.Some? {
        return Ok(instances[i.value]);
      }
      r := Create(email, ready, uuids);
    }

    /**
     * `Session.destroy`: ends the IMAP handle of the first session with this token and
     * applies a one-argument `splice` at its index, which drops that session and every
     * later one. An unknown token changes nothing.
     */
    method Destroy(token: string)
      requires Valid()
      modifies this
      ensures Valid()
      ensures FirstIndex(Tokens(old(instances)), token).None? ==>
                instances == old(instances) && ended == old(ended)
      ensures FirstIndex(Tokens(old(instances)), token).Some? ==>
                var i := FirstIndex(Tokens(old(instances)), token).value;
                instances == old(instances)[..i] && ended == old(ended) + {old(instances)[i].imapHandle}
    {
      var i := FirstIndex(Tokens(instances), token);
      if i.Some? {
        ended := ended + {instances[i.value].imapHandle};
        TokensPrefix(instances, i.value);
        instances := instances[..i.value];
      }
    }

    /**
     * `Session.destroyAll`: `map` over the array calls `destroy` for each element
     * still present. `destroy` runs to completion before the first `await`, so the call
     * for the first session truncates the array to nothing, and `map` skips the indices
     * that have gone. The registry ends up empty, but only the first IMAP handle is ended.
     */
    method DestroyAll()
      requires Valid()
      modifies this
      ensures Valid() && instances == []
      ensures ended == old(ended) + EndedByDestroyAll(old(instances))
    {
      var length := |instances|;
      var k := 0;
      while k < length
        invariant 0 <= k <= length && Valid()
        invariant k == 0 ==> instances == old(instances) && ended == old(ended)
        invariant k > 0 ==> instances == [] && ended == old(ended) + EndedByDestroyAll(old(instances))
      {
        if k < |instances| {
          DistinctIndex(Tokens(instances), k);
          Destroy(instances[k].token);
        }
        k := k + 1;
      }
    }

    /**
     * What `destroyAll` is evidently meant to do: destroy every session, last first, so
     * that each `destroy` drops exactly one session and ends its IMAP handle.
     */
    method DestroyEach()
      requires Valid()
      modifies this
      ensures Valid() && instances == []
      ensures ended == old(ended) + ImapHandles(old(instances))
    {
      ghost var all := instances;
      while instances != []
        invariant Valid()
        invariant |instances| <= |all| && instances == all[..|instances|]
        invariant ended == old(ended) + ImapHandles(all[|instances|..])
        decreases |instances|
      {
        var last := |instances| - 1;
        assert instances[last] == all[last];
        DistinctIndex(Tokens(instances), last);
        Destroy(instances[last].token);
        ImapHandlesFrom(all, last);
      }
    }
  }
}
