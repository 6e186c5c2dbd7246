/** The index of client connections (net/http2/client_conn_pool.go): the connections of each address and
    the addresses of each connection, which must agree. */
module ConnPool {
  import opened ByteSeqs

  /** A connection, by its identity. */
  type Conn = nat

  function Without<T(==)>(s: seq<T>, x: T): seq<T> {
    if s == [] then [] else (if s[0] == x then [] else [s[0]]) + Without(s[1..], x)
  }

  /** Everything else is kept, and nothing twice that was there once. */
  lemma {:induction false} WithoutKeeps<T>(s: seq<T>, x: T)
    ensures forall y :: y in Without(s, x) <==> y in s && y != x
    ensures Distinct(s) ==> Distinct(Without(s, x))
    ensures x !in s ==> Without(s, x) == s
  {
    if s != [] {
      var rest := Without(s[1..], x);
      WithoutKeeps(s[1..], x);
      assert forall y :: y in s <==> y == s[0] || y in s[1..];
      if Distinct(s) { assert s[0] !in s[1..]; }
    }
  }

  lemma {:induction false} WithoutLast<T>(s: seq<T>, y: T, x: T)
    ensures Without(s + [y], x) == Without(s, x) + if y == x then [] else [y]
  {
    if s != [] {
      assert (s + [y])[0] == s[0] && (s + [y])[1..] == s[1..] + [y];
      WithoutLast(s[1..], y, x);
    }
  }

  /** filterOutClientConn: in place, in order, behind one cursor. */
  method FilterOut(a: array<Conn>, exclude: Conn) returns (n: nat)
    modifies a
    ensures n <= a.Length && a[..n] == Without(old(a[..]), exclude)
  {
    ghost var was := a[..];
    n := 0;
    for i := 0 to a.Length
      invariant n <= i && a[..n] == Without(was[..i], exclude)
      invariant forall k :: i <= k < a.Length ==> a[k] == was[k]
    {
      WithoutLast(was[..i], was[i], exclude);
      assert was[..i + 1] == was[..i] + [was[i]];
      var v := a[i];
      if v != exclude {
        a[n] := v;
        n := n + 1;
        assert a[..n] == Without(was[..i], exclude) + [v];
      }
    }
    assert was[..a.Length] == was;
  }

  /** What an index lists for something. */
  function Listed<K(==), V>(m: map<K, seq<V>>, k: K): seq<V> { if k in m then m[k] else [] }

  /** An index lists nothing twice and keeps no empty lists. */
  ghost predicate Tidy<K, V>(m: map<K, seq<V>>) {
    forall k :: k in m ==> m[k] != [] && Distinct(m[k])
  }

  /** A connection is listed for an address exactly if the address is listed for the connection. */
  ghost predicate Agree(conns: map<string, seq<Conn>>, keys: map<Conn, seq<string>>) {
    forall key, cc :: cc in Listed(conns, key) <==> key in Listed(keys, cc)
  }

  ghost predicate Ok(conns: map<string, seq<Conn>>, keys: map<Conn, seq<string>>) {
    Agree(conns, keys) && Tidy(conns) && Tidy(keys)
  }

  lemma AddedTidy<K, V>(m: map<K, seq<V>>, k: K, v: V)
    requires Tidy(m) && v !in Listed(m, k)
    ensures Tidy(m[k := Listed(m, k) + [v]])
  {
  }

  lemma AddedOk(conns: map<string, seq<Conn>>, keys: map<Conn, seq<string>>, key: string, cc: Conn)
    requires Ok(conns, keys) && cc !in Listed(conns, key)
    ensures Ok(conns[key := Listed(conns, key) + [cc]], keys[cc := Listed(keys, cc) + [key]])
  {
    AddedTidy(conns, key, cc);
    AddedTidy(keys, cc, key);
    var conns', keys' := conns[key := Listed(conns, key) + [cc]], keys[cc := Listed(keys, cc) + [key]];
    forall k, c ensures c in Listed(conns', k) <==> k in Listed(keys', c) {
      assert c in Listed(conns', k) <==> c in Listed(conns, k) || (k == key && c == cc);
      assert k in Listed(keys', c) <==> k in Listed(keys, c) || (k == key && c == cc);
    }
  }

  /** A connection is taken out of every list. */
  ghost predicate Dropped(conns: map<string, seq<Conn>>, conns': map<string, seq<Conn>>, cc: Conn) {
    && (forall key :: key in conns' ==> conns'[key] != [])
    && (forall key :: Listed(conns', key) == Without(Listed(conns, key), cc))
  }

  lemma DroppedOk(conns: map<string, seq<Conn>>, conns': map<string, seq<Conn>>, keys: map<Conn, seq<string>>, cc: Conn)
    requires Ok(conns, keys) && Dropped(conns, conns', cc)
    ensures Ok(conns', keys - {cc})
  {
    forall key | key in conns' ensures Distinct(conns'[key]) {
      assert conns'[key] == Listed(conns', key);
      WithoutKeeps(Listed(conns, key), cc);
    }
    forall k, c ensures c in Listed(conns', k) <==> k in Listed(keys - {cc}, c) {
      WithoutKeeps(Listed(conns, k), cc);
      assert Listed(conns', k) == Without(Listed(conns, k), cc);
      assert c in Listed(conns, k) <==> k in Listed(keys, c);
    }
  }

  class Pool {
    var conns: map<string, seq<Conn>>
    var keys: map<Conn, seq<string>>

    /** The two indexes agree, list nothing twice and keep no empty lists. */
    ghost predicate Valid() reads this { Ok(conns, keys) }

    constructor ()
      ensures Valid() && conns == map[] && keys == map[]
    {
      conns, keys := map[], map[];
    }

    /** addConnLocked. */
    method Add(key: string, cc: Conn)
      requires Valid()
      modifies this
      ensures Valid()
      ensures if cc in old(Listed(conns, key)) then conns == old(conns) && keys == old(keys)
        else conns == old(conns[key := Listed(conns, key) + [cc]]) && keys == old(keys[cc := Listed(keys, cc) + [key]])
    {
      var list := Listed(conns, key);
      for i := 0 to |list|
        invariant cc !in list[..i]
      {
        if list[i] == cc { return; }
      }
      AddedOk(conns, keys, key, cc);
      conns := conns[key := list + [cc]];
      keys := keys[cc := Listed(keys, cc) + [key]];
    }

    /** MarkDead: the connection is listed nowhere, and nobody else is touched. */
    method MarkDead(cc: Conn)
      requires Valid()
      modifies this
      ensures Valid() && keys == old(keys) - {cc}
      ensures forall key :: Listed(conns, key) == Without(old(Listed(conns, key)), cc)
    {
      var ks := Listed(keys, cc);
      ghost var was := conns;
      for i := 0 to |ks|
        invariant keys == old(keys) && forall key :: key in conns ==> conns[key] != []
        invariant forall key ::
          Listed(conns, key) == if key in ks[..i] then Without(Listed(was, key), cc) else Listed(was, key)
      {
        TakeOneMore(ks, i);
        DropFrom(ks[i], cc);
      }
      assert ks[..|ks|] == ks;
      forall key ensures Listed(conns, key) == Without(Listed(was, key), cc) { WithoutKeeps(Listed(was, key), cc); }
      DroppedOk(was, conns, keys, cc);
      keys := keys - {cc};
    }

    /** A turn of that loop. */
    method DropFrom(key: string, cc: Conn)
      requires forall k :: k in conns ==> conns[k] != []
      modifies `conns
      ensures forall k :: k in conns ==> conns[k] != []
      ensures forall k ::
        Listed(conns, k) == if k == key then Without(old(Listed(conns, k)), cc) else old(Listed(conns, k))
    {
      if key !in conns { return; }
      var newList := Without(conns[key], cc);
      if |newList| > 0 { conns := conns[key := newList]; } else { conns := conns - {key}; }
    }
  }

  lemma TakeOneMore<T>(s: seq<T>, i: nat)
    requires i < |s|
    ensures forall x :: x in s[..i + 1] <==> x in s[..i] || x == s[i]
  {
    assert s[..i + 1] == s[..i] + [s[i]];
  }
}
