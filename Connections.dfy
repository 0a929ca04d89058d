/**
 * The registry of connections (src/models/Connection.ts): a static array of
 * token/address pairs. A connection's token comes from the generator unchecked, and
 * `create` evicts any connection already holding it before appending the new one.
 */
module Connections {
  import opened Outcomes
  import opened Registry

  /** One connection: its token and the owner's address. */
  datatype Connection = Connection(token: string, email: string)

  /** The tokens of the connections, in order. */
  function Tokens(s: seq<Connection>): (r: seq<string>)
    ensures |r| == |s| && forall k :: 0 <= k < |s| ==> r[k] == s[k].token
  {
    seq(|s|, k requires 0 <= k < |s| => s[k].token)
  }

  /** The e-mail addresses of the connections, in order. */
  function Emails(s: seq<Connection>): (r: seq<string>)
    ensures |r| == |s| && forall k :: 0 <= k < |s| ==> r[k] == s[k].email
  {
    seq(|s|, k requires 0 <= k < |s| => s[k].email)
  }

  /** `splice(i, 1)`: the connections without the one at index `i`, the others in order. */
  function RemoveAt(s: seq<Connection>, i: nat): (r: seq<Connection>)
    requires i < |s|
    ensures |r| == |s| - 1
    ensures forall k :: 0 <= k < i ==> r[k] == s[k]
    ensures forall k :: i <= k < |r| ==> r[k] == s[k + 1]
  {
    s[..i] + s[i + 1..]
  }

  /** The connections after `destroy(token)`: the first holder of the token removed, if there is one. */
  function Without(s: seq<Connection>, token: string): (r: seq<Connection>)
    ensures token !in Tokens(s) ==> r == s
    ensures token in Tokens(s) ==> |r| == |s| - 1 && multiset(r) + multiset{s[FirstIndex(Tokens(s), token).value]} == multiset(s)
  {
    match FirstIndex(Tokens(s), token)
    case None => s
    case Some(i) =>
      assert s == s[..i] + [s[i]] + s[i + 1..];
      RemoveAt(s, i)
  }

  /** Removing one connection keeps distinct tokens distinct, and with distinct tokens removes the token altogether. */
  lemma WithoutRemovesToken(s: seq<Connection>, token: string)
    requires Distinct(Tokens(s))
    ensures Distinct(Tokens(Without(s, token)))
    ensures token !in Tokens(Without(s, token))
    ensures |Without(s, token)| == |s| - (if token in Tokens(s) then 1 else 0)
  {
    var r := Without(s, token);
    if FirstIndex(Tokens(s), token).Some? {
      var i := FirstIndex(Tokens(s), token).value;
      forall a, b | 0 <= a < b < |r| ensures r[a].token != r[b].token {
        var a' := if a < i then a else a + 1;
        var b' := if b < i then b else b + 1;
        assert r[a] == s[a'] && r[b] == s[b'];
      }
      forall k | 0 <= k < |r| ensures r[k].token != token {
        var k' := if k < i then k else k + 1;
        assert r[k] == s[k'];
      }
    }
  }

  /** Destroying a token twice is destroying it once, for distinct tokens. */
  lemma WithoutIdempotent(s: seq<Connection>, token: string)
    requires Distinct(Tokens(s))
    ensures Without(Without(s, token), token) == Without(s, token)
  {
    WithoutRemovesToken(s, token);
  }

  /**
   * After `create`, exactly one connection holds the new token and it is the last one,
   * and the tokens are still distinct.
   */
  lemma CreateHoldsTokenOnce(s: seq<Connection>, c: Connection)
    requires Distinct(Tokens(s))
    ensures var r := Without(s, c.token) + [c];
            && r[|r| - 1] == c
            && (forall k :: 0 <= k < |r| - 1 ==> r[k].token != c.token)
            && Distinct(Tokens(r))
  {
    WithoutRemovesToken(s, c.token);
    var w := Without(s, c.token);
    assert Tokens(w + [c]) == Tokens(w) + [c.token];
    FirstIndexOfAppended(Tokens(w), c.token);
  }

  /** The static `Connection.instances` array. */
  class ConnectionRegistry {
    var instances: seq<Connection>

    /** Tokens identify connections: no two live connections share one. */
    ghost predicate Valid()
      reads this
    {
      Distinct(Tokens(instances))
    }

    constructor ()
      ensures Valid() && instances == []
    {
      instances := [];
    }

    /** `Connection.getAll`: the live connections, in order. */
    method GetAll() returns (r: seq<Connection>)
      ensures r == instances
    {
      r := instances;
    }

    /**
     * `Connection.destroy`: `findIndex` the token and `splice(index, 1)`; an unknown token
     * (index -1) changes nothing.
     */
    method Destroy(token: string)
      requires Valid()
      modifies this
      ensures Valid()
      ensures instances == Without(old(instances), token)
    {
      WithoutRemovesToken(instances, token);
      var index := FirstIndex(Tokens(instances), token);
      if index.None? {
        return;
      }
      instances := RemoveAt(instances, index.value);
    }

    /**
     * `Connection.create`: the generator's `token` is taken as it comes; a `for … of` over
     * the live array destroys its holder, and the new connection is appended.
     */
    method Create(email: string, token: string) returns (c: Connection)
      requires Valid()
      modifies this
      ensures Valid()
      ensures c == Connection(token, email)
      ensures instances == Without(old(instances), token) + [c]
    {
      ghost var start := instances;
      ghost var holder := FirstIndex(Tokens(start), token);
      WithoutRemovesToken(start, token);
      var i := 0;
      while i < |instances|
        invariant i <= |start| && Valid()
        invariant holder.None? ==> instances == start
        invariant holder.Some? && i <= holder.value ==> instances == start
        invariant holder.Some? && i > holder.value ==> instances == Without(start, token)
        decreases |start| - i
      {
        if instances[i].token == token {
          DistinctIndex(Tokens(instances), i);
          Destroy(token);
        }
        i := i + 1;
      }
      c := Connection(token, email);
      CreateHoldsTokenOnce(start, c);
      instances := instances + [c];
    }

    /** `Connection.connect`: the first connection of this address if there is one, unchanged; otherwise `create`. */
    method Connect(email: string, token: string) returns (c: Connection)
      requires Valid()
      modifies this
      ensures Valid()
      ensures email in Emails(old(instances)) ==>
                instances == old(instances) && c == old(instances)[FirstIndex(Emails(old(instances)), email).value]
      ensures email !in Emails(old(instances)) ==>
                c == Connection(token, email) && instances == Without(old(instances), token) + [c]
    {
      var i := FirstIndex(Emails(instances), email);
      if i.Some? {
        return instances[i.value];
      }
      c := Create(email, token);
    }
  }
}
