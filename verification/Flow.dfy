/** Flow-control windows (net/http2/flow.go): int32 counters, one per stream, each linked to the
    counter of its connection. */
module Flow {

  import opened Machine

  const MAX_WINDOW := MAX_INT32

  /** What `add` leaves in a window holding n, and whether it accepts. */
  function Added(n: int, d: int): (r: (int, bool))
    requires IsInt32(n) && IsInt32(d)
    ensures IsInt32(r.0)
  {
    if d > Wrap32(MAX_WINDOW - n) then (n, false) else (Wrap32(n + d), true)
  }

  /** What the comment on `add` promises: refuse exactly a sum above 2^31-1, otherwise store it. */
  predicate AddsAsPromised(n: int, d: int)
    requires IsInt32(n) && IsInt32(d)
  {
    Added(n, d) == if n + d > MAX_WINDOW then (n, false) else (n + d, true)
  }

  /** The promise holds for every increment exactly when the window is not negative; on a
      negative window it fails for every increment, because the room left wraps. */
  lemma AddKeepsPromiseIff(n: int, d: int)
    requires IsInt32(n) && IsInt32(d)
    ensures AddsAsPromised(n, d) <==> 0 <= n
    ensures n < 0 && MIN_INT32 <= n + d ==> Added(n, d) == (n, false)
  {
    if n < 0 {
      var room := Wrap32(MAX_WINDOW - n);
      assert room == MIN_INT32 - 1 - n;
      if d <= room { assert n + d < MIN_INT32; }
    }
  }

  class Window {
    var n: int
    const conn: Window?

    constructor (conn: Window?)
      ensures n == 0 && this.conn == conn
    {
      n := 0;
      this.conn := conn;
    }

    /** A stream's window and its connection's, both in range. */
    ghost predicate Valid()
      reads this, if conn == null then {} else {conn}
    {
      IsInt32(n) && (conn != null ==> conn != this && IsInt32(conn.n) && conn.conn == null)
    }

    /** The bytes that both windows allow. */
    function Available(): (a: int)
      reads this, if conn == null then {} else {conn}
      ensures a <= n && (conn != null ==> a <= conn.n)
      ensures a == n || (conn != null && a == conn.n)
    {
      if conn != null && conn.n < n then conn.n else n
    }

    /** The precondition is the source's check: "took too much" is not reachable. */
    method Take(d: int)
      requires Valid() && IsInt32(d) && 0 <= d <= Available()
      modifies this`n, if conn == null then {} else {conn}`n
      ensures Valid()
      ensures n == old(n) - d
      ensures conn != null ==> conn.n == old(conn.n) - d
      ensures 0 < d ==> 0 <= n && (conn != null ==> 0 <= conn.n)
    {
      n := Wrap32(n - d);
      if conn != null { conn.n := Wrap32(conn.n - d); }
    }

    method Add(d: int) returns (ok: bool)
      requires Valid() && IsInt32(d)
      modifies this`n
      ensures Valid()
      ensures (n, ok) == Added(old(n), d)
    {
      var remain := Wrap32(MAX_WINDOW - n);
      if d > remain { return false; }
      n := Wrap32(n + d);
      ok := true;
    }
  }
}
