/** The priority forest (adjustStreamPriority in net/http2/server.go): parent pointers between
    streams, edited in place. */
module Priority {
  import opened Flow
  import opened Streams

  datatype PriorityParam = PriorityParam(streamDep: nat, exclusive: bool, weight: nat)

  // ---------------------------------------------------------------- forests

  /** Parent pointers of a set of streams, as values; null for a root. */
  type Parents = map<Stream, Stream?>

  /** Every parent is one of the streams. */
  ghost predicate Closed(par: Parents) {
    forall s :: s in par && par[s] != null ==> par[s] in par
  }

  /** anc gives each stream its ancestors: its parent and its parent's ancestors. */
  ghost predicate Ancestry(par: Parents, anc: map<Stream, set<Stream>>) {
    && Closed(par)
    && anc.Keys == par.Keys
    && (forall s :: s in par && par[s] == null ==> anc[s] == {})
    && (forall s :: s in par && par[s] != null ==> anc[s] == anc[par[s]] + {par[s]})
    && (forall s :: s in par ==> s !in anc[s])
    && (forall s :: s in par ==> anc[s] <= par.Keys)
  }

  /** The k-th parent of s, or null past the root. */
  ghost function Walk(par: Parents, s: Stream?, k: nat): Stream?
    requires Closed(par) && (s != null ==> s in par)
    ensures Walk(par, s, k) != null ==> Walk(par, s, k) in par
  {
    if k == 0 || s == null then s else Walk(par, par[s], k - 1)
  }

  lemma ParentHasFewer(par: Parents, anc: map<Stream, set<Stream>>, s: Stream)
    requires Ancestry(par, anc) && s in par && par[s] != null
    ensures |anc[par[s]]| < |anc[s]| && anc[par[s]] <= anc[s]
  {
    var p := par[s];
    assert anc[s] == anc[p] + {p} && p !in anc[p];
    assert |anc[s]| == |anc[p]| + 1;
  }

  /** An ancestry rules out cycles: a walk up from s never meets s again, and it ends after at
      most as many steps as s has ancestors. */
  lemma {:induction false} AncestryAcyclic(par: Parents, anc: map<Stream, set<Stream>>, s: Stream, k: nat)
    requires Ancestry(par, anc) && s in par && 0 < k
    ensures Walk(par, s, k) != null ==> Walk(par, s, k) in anc[s]
    ensures Walk(par, s, k) != s
    ensures k > |anc[s]| ==> Walk(par, s, k) == null
    decreases k
  {
    var p := par[s];
    assert Walk(par, s, k) == Walk(par, p, k - 1);
    if p != null {
      ParentHasFewer(par, anc, s);
      if k > 1 { AncestryAcyclic(par, anc, p, k - 1); }
    }
  }

  lemma {:induction false} AncestorsOfAncestors(par: Parents, anc: map<Stream, set<Stream>>, s: Stream, t: Stream)
    requires Ancestry(par, anc) && s in par && t in anc[s]
    ensures t in par && anc[t] <= anc[s]
    decreases |anc[s]|
  {
    var p := par[s];
    ParentHasFewer(par, anc, s);
    if t != p { AncestorsOfAncestors(par, anc, p, t); }
  }

  /** The ancestors of x after s is moved under p, whose ancestors and itself are above. */
  ghost function MovedFrom(anc: map<Stream, set<Stream>>, s: Stream, above: set<Stream>, x: Stream): set<Stream>
    requires s in anc && x in anc
  {
    if x == s || s in anc[x] then anc[x] - anc[s] + above else anc[x]
  }

  ghost function Above(anc: map<Stream, set<Stream>>, p: Stream?): set<Stream>
    requires p != null ==> p in anc
  {
    if p == null then {} else anc[p] + {p}
  }

  ghost function Moved(anc: map<Stream, set<Stream>>, s: Stream, p: Stream?): map<Stream, set<Stream>>
    requires s in anc && (p != null ==> p in anc)
  {
    map x | x in anc :: MovedFrom(anc, s, Above(anc, p), x)
  }

  lemma MovedParent(par: Parents, anc: map<Stream, set<Stream>>, s: Stream, above: set<Stream>, x: Stream)
    requires Ancestry(par, anc) && s in par && x in par && x != s && par[x] != null
    ensures MovedFrom(anc, s, above, x) == MovedFrom(anc, s, above, par[x]) + {par[x]}
  {
    var y := par[x];
    assert anc[x] == anc[y] + {y};
    if y != s && s in anc[y] && y in anc[s] {
      AncestorsOfAncestors(par, anc, s, y);
    }
  }

  lemma MovedIrreflexive(par: Parents, anc: map<Stream, set<Stream>>, s: Stream, p: Stream?, x: Stream)
    requires Ancestry(par, anc) && s in par && x in par
    requires p != null ==> p in par && p != s && s !in anc[p]
    ensures x !in MovedFrom(anc, s, Above(anc, p), x)
  {
    if s in anc[x] && p != null && x in anc[p] {
      AncestorsOfAncestors(par, anc, p, x);
    }
  }

  lemma MovedSelf(par: Parents, anc: map<Stream, set<Stream>>, s: Stream, p: Stream?)
    requires Ancestry(par, anc) && s in par
    requires p != null ==> p in par && p != s && s !in anc[p]
    ensures MovedFrom(anc, s, Above(anc, p), s) == Above(anc, p)
    ensures p != null ==> MovedFrom(anc, s, Above(anc, p), p) == anc[p]
  {
  }

  /** The defining equation of ancestors, for one stream after the move. */
  lemma MovedEquation(par: Parents, anc: map<Stream, set<Stream>>, s: Stream, p: Stream?, x: Stream)
    requires Ancestry(par, anc) && s in par && x in par
    requires p != null ==> p in par && p != s && s !in anc[p]
    ensures var y := if x == s then p else par[x];
      var above := Above(anc, p);
      && MovedFrom(anc, s, above, x) == (if y == null then {} else MovedFrom(anc, s, above, y) + {y})
      && x !in MovedFrom(anc, s, above, x) && MovedFrom(anc, s, above, x) <= par.Keys
  {
    MovedIrreflexive(par, anc, s, p, x);
    if x == s {
      MovedSelf(par, anc, s, p);
    } else if par[x] != null {
      MovedParent(par, anc, s, Above(anc, p), x);
    }
  }

  /** Moving a stream under one that is not below it keeps the forest. */
  lemma MoveKeepsAncestry(par: Parents, anc: map<Stream, set<Stream>>, s: Stream, p: Stream?)
    requires Ancestry(par, anc) && s in par
    requires p != null ==> p in par && p != s && s !in anc[p]
    ensures Ancestry(par[s := p], Moved(anc, s, p))
  {
    var par', anc' := par[s := p], Moved(anc, s, p);
    forall x | x in par
      ensures anc'[x] == (if par'[x] == null then {} else anc'[par'[x]] + {par'[x]})
      ensures x !in anc'[x] && anc'[x] <= par.Keys
    {
      MovedEquation(par, anc, s, p, x);
    }
    assert par'.Keys == par.Keys;
  }

  // ---------------------------------------------------------------- reprioritization

  /** The parent of one of these streams; nothing is said of any other. */
  ghost function ParentIn(ever: set<Stream>, s: Stream): Stream?
    reads ever`parent
  {
    if s in ever then s.parent else null
  }

  ghost function ParentsOf(ever: set<Stream>): Parents
    reads ever`parent
  {
    map s | s in ever :: ParentIn(ever, s)
  }

  /** Section 5.3.3 of RFC 7540: a stream made dependent on one of its own dependents is first
      replaced there, the dependent taking its place. */
  ghost function Reparented(par: Parents, anc: map<Stream, set<Stream>>, st: Stream, parent: Stream?): Parents
    requires Ancestry(par, anc) && st in par && (parent != null ==> parent in par)
  {
    (if parent != null && st in anc[parent] then par[parent := par[st]] else par)[st := parent]
  }

  /** Section 5.3.1 of RFC 7540: an exclusive dependency adopts its siblings among the open. */
  ghost function Adopted(par: Parents, open: set<Stream>, st: Stream): Parents
    requires st in par
  {
    map x | x in par :: if x in open && x != st && par[x] == par[st] then st else par[x]
  }

  /** The parent pointers that the source's adjustStreamPriority leaves. */
  ghost function Adjusted(par: Parents, anc: map<Stream, set<Stream>>, streams: map<nat, Stream>, streamID: nat,
                          p: PriorityParam): Parents
    requires Ancestry(par, anc) && streams.Values <= par.Keys
  {
    if streamID !in streams then par else
    var st := streams[streamID];
    var parent := if p.streamDep in streams then streams[p.streamDep] else null;
    if parent == st then par else
    var moved := Reparented(par, anc, st, parent);
    if p.exclusive && (parent != null || p.streamDep == 0) then Adopted(moved, streams.Values, st) else moved
  }

  /** A walk up from s comes to t. */
  ghost predicate Under(par: Parents, s: Stream, t: Stream)
    requires Closed(par) && s in par
  {
    exists k: nat :: 0 < k && Walk(par, s, k) == t
  }

  lemma {:induction false} AncestorsAreAbove(par: Parents, anc: map<Stream, set<Stream>>, s: Stream, t: Stream)
    requires Ancestry(par, anc) && s in par
    ensures t in anc[s] <==> Under(par, s, t)
    decreases |anc[s]|
  {
    if k: nat :| 0 < k && Walk(par, s, k) == t { AncestryAcyclic(par, anc, s, k); }
    if t in anc[s] {
      var p := par[s];
      assert Walk(par, s, 1) == Walk(par, p, 0) == p;
      if t != p {
        ParentHasFewer(par, anc, s);
        AncestorsAreAbove(par, anc, p, t);
        var k: nat :| 0 < k && Walk(par, p, k) == t;
        assert Walk(par, s, k + 1) == t;
      }
    }
  }

  /** What a change of priority does, pointer by pointer.  The stream has the parent that was asked for.  If that was
      below it, it now has the parent that the stream had.  Any other stream keeps its parent, unless the change is
      exclusive and it is an open stream with that parent: then it is now below the stream. */
  ghost predicate Rearranged(par: Parents, par': Parents, open: set<Stream>, st: Stream, parent: Stream?,
                             exclusive: bool)
    requires Closed(par) && st in par && (parent != null ==> parent in par)
  {
    && par'.Keys == par.Keys && par'[st] == parent
    && (parent != null && Under(par, parent, st) ==> par'[parent] == par[st])
    && (forall s :: s in par && s != st && !(s == parent && Under(par, s, st)) ==>
      par'[s] == if exclusive && s in open && par[s] == parent then st else par[s])
  }

  lemma ReparentedRearranges(par: Parents, anc: map<Stream, set<Stream>>, st: Stream, parent: Stream?)
    requires Ancestry(par, anc) && st in par && (parent != null ==> parent in par && parent != st)
    ensures Rearranged(par, Reparented(par, anc, st, parent), {}, st, parent, false)
  {
    if parent != null { AncestorsAreAbove(par, anc, parent, st); }
    hide Ancestry, Under;
  }

  lemma AdjustedRearranges(par: Parents, anc: map<Stream, set<Stream>>, streams: map<nat, Stream>, streamID: nat,
                           p: PriorityParam)
    requires Ancestry(par, anc) && streams.Values <= par.Keys && streamID in streams
    requires p.streamDep in streams ==> streams[p.streamDep] != streams[streamID]
    ensures var parent := if p.streamDep in streams then streams[p.streamDep] else null;
      Rearranged(par, Adjusted(par, anc, streams, streamID, p), streams.Values, streams[streamID], parent,
                 p.exclusive && (p.streamDep in streams || p.streamDep == 0))
  {
    var st := streams[streamID];
    if p.streamDep in streams {
      var parent := streams[p.streamDep];
      AncestorsAreAbove(par, anc, parent, st);
      assert par[parent] != parent;
      if st in anc[parent] { PlaceIsNotBelow(par, anc, st, parent); }
    }
    hide Ancestry, Under;
  }

  /** A sibling is not above: adopting it keeps the forest. */
  lemma SiblingNotAbove(par: Parents, anc: map<Stream, set<Stream>>, st: Stream, o: Stream)
    requires Ancestry(par, anc) && st in par && o in par && o != st && par[o] == par[st]
    ensures o !in anc[st]
  {
    var p := par[st];
    if p != null && o in anc[p] { AncestorsOfAncestors(par, anc, p, o); }
  }

  /** The source's walk up from parent, looking for st; it ends because there is no cycle. */
  method IsAncestor(st: Stream, parent: Stream?, ghost ever: set<Stream>, ghost anc: map<Stream, set<Stream>>)
      returns (found: bool)
    requires Ancestry(ParentsOf(ever), anc) && st in ever && (parent != null ==> parent in ever && parent != st)
    ensures found <==> parent != null && st in anc[parent]
  {
    var piter := parent;
    while piter != null
      invariant piter != null ==> piter in ever
      invariant (piter != null && (piter == st || st in anc[piter])) <==> (parent != null && st in anc[parent])
      decreases if piter == null then 0 else 1 + |anc[piter]|
    {
      if piter == st { return true; }
      if piter.parent != null { ParentHasFewer(ParentsOf(ever), anc, piter); }
      piter := piter.parent;
    }
    found := false;
  }

  lemma AdoptedStep(par: Parents, done: set<Stream>, st: Stream, o: Stream)
    requires st in par && o in par && o !in done
    ensures var now := Adopted(par, done, st);
      && now[o] == par[o] && now[st] == par[st]
      && Adopted(par, done + {o}, st) == (if o != st && par[o] == par[st] then now[o := st] else now)
  {
  }

  /** One pointer is set, to a stream that is not below. */
  method MoveUnder(s: Stream, p: Stream?, ghost ever: set<Stream>, ghost anc0: map<Stream, set<Stream>>)
    returns (ghost anc: map<Stream, set<Stream>>)
    requires Ancestry(ParentsOf(ever), anc0) && s in ever
    requires p != null ==> p in ever && p != s && s !in anc0[p]
    modifies s`parent
    ensures Ancestry(ParentsOf(ever), anc) && anc == Moved(anc0, s, p) && s.parent == p
    ensures ParentsOf(ever) == old(ParentsOf(ever))[s := p]
  {
    MoveKeepsAncestry(ParentsOf(ever), anc0, s, p);
    anc := Moved(anc0, s, p);
    s.parent := p;
    assert ParentsOf(ever) == old(ParentsOf(ever))[s := p];
  }

  /** Adopting one sibling. */
  method AdoptOne(o: Stream, st: Stream, ghost ever: set<Stream>, ghost anc0: map<Stream, set<Stream>>)
    returns (ghost anc: map<Stream, set<Stream>>)
    requires Ancestry(ParentsOf(ever), anc0) && st in ever && o in ever && o != st && o.parent == st.parent
    modifies o`parent
    ensures Ancestry(ParentsOf(ever), anc)
    ensures ParentsOf(ever) == old(ParentsOf(ever))[o := st]
  {
    SiblingNotAbove(ParentsOf(ever), anc0, st, o);
    anc := MoveUnder(o, st, ever, anc0);
  }

  /** The source's loop over the open streams after an exclusive change. */
  method AdoptSiblings(streams: map<nat, Stream>, st: Stream, ghost ever: set<Stream>,
                       ghost anc0: map<Stream, set<Stream>>)
    returns (ghost anc: map<Stream, set<Stream>>)
    requires Ancestry(ParentsOf(ever), anc0) && st in ever && streams.Values <= ever
    modifies ever`parent
    ensures Ancestry(ParentsOf(ever), anc)
    ensures ParentsOf(ever) == Adopted(old(ParentsOf(ever)), streams.Values, st)
  {
    anc := anc0;
    ghost var par0 := ParentsOf(ever);
    var todo := streams.Values;
    ghost var done: set<Stream> := {};
    while todo != {}
      invariant todo <= ever && todo !! done && todo + done == streams.Values
      invariant Ancestry(ParentsOf(ever), anc)
      invariant ParentsOf(ever) == Adopted(par0, done, st)
      decreases todo
    {
      var o :| o in todo;
      AdoptedStep(par0, done, st, o);
      assert ParentsOf(ever)[o] == o.parent && ParentsOf(ever)[st] == st.parent;
      if o != st && o.parent == st.parent { anc := AdoptOne(o, st, ever, anc); }
      todo, done := todo - {o}, done + {o};
    }
    assert done == streams.Values;
  }

  /** A dependent that takes its own ancestor's place leaves a forest in which it is no longer
      below it. */
  lemma PromoteKeepsAncestry(par: Parents, anc: map<Stream, set<Stream>>, st: Stream, parent: Stream)
    requires Ancestry(par, anc) && st in par && parent in par && st in anc[parent]
    ensures Ancestry(par[parent := par[st]], Moved(anc, parent, par[st]))
    ensures st !in Moved(anc, parent, par[st])[parent]
  {
    AncestorsOfAncestors(par, anc, parent, st);
    var p := par[st];
    MoveKeepsAncestry(par, anc, parent, p);
    MovedSelf(par, anc, parent, p);
  }

  /** The source's adjustStreamPriority. */
  method AdjustStreamPriority(streams: map<nat, Stream>, streamID: nat, p: PriorityParam,
                              ghost ever: set<Stream>, ghost anc0: map<Stream, set<Stream>>)
    returns (ghost anc: map<Stream, set<Stream>>)
    requires Ancestry(ParentsOf(ever), anc0) && streams.Values <= ever
    modifies ever`parent, ever`weight
    ensures Ancestry(ParentsOf(ever), anc)
    ensures ParentsOf(ever) == Adjusted(old(ParentsOf(ever)), anc0, streams, streamID, p)
    ensures forall s :: s in ever ==>
      s.weight == if streamID in streams && s == streams[streamID] then p.weight else old(s.weight)
    ensures streamID !in streams || (p.streamDep in streams && streams[p.streamDep] == streams[streamID]) ==>
      forall s :: s in ever ==> s.parent == old(s.parent)
    ensures streamID in streams && !(p.streamDep in streams && streams[p.streamDep] == streams[streamID]) ==>
      var parent := if p.streamDep in streams then streams[p.streamDep] else null;
      Rearranged(old(ParentsOf(ever)), ParentsOf(ever), streams.Values, streams[streamID], parent,
                 p.exclusive && (p.streamDep in streams || p.streamDep == 0))
  {
    if streamID in streams && !(p.streamDep in streams && streams[p.streamDep] == streams[streamID]) {
      AdjustedRearranges(ParentsOf(ever), anc0, streams, streamID, p);
    }
    hide Ancestry, Rearranged, Reparented, Adopted;
    anc := anc0;
    if streamID !in streams { return; }
    var st := streams[streamID];
    st.weight := p.weight;
    var parent: Stream? := null;
    if p.streamDep in streams { parent := streams[p.streamDep]; }
    if parent == st { return; }
    anc := Reparent(st, parent, ever, anc);
    if p.exclusive && (st.parent != null || p.streamDep == 0) {
      anc := AdoptSiblings(streams, st, ever, anc);
    }
  }

  method Reparent(st: Stream, parent: Stream?, ghost ever: set<Stream>, ghost anc0: map<Stream, set<Stream>>)
    returns (ghost anc: map<Stream, set<Stream>>)
    requires Ancestry(ParentsOf(ever), anc0) && st in ever && (parent != null ==> parent in ever && parent != st)
    modifies ever`parent
    ensures Ancestry(ParentsOf(ever), anc) && st.parent == parent
    ensures ParentsOf(ever) == Reparented(old(ParentsOf(ever)), anc0, st, parent)
    ensures Rearranged(old(ParentsOf(ever)), ParentsOf(ever), {}, st, parent, false)
  {
    ReparentedRearranges(ParentsOf(ever), anc0, st, parent);
    hide Rearranged;
    anc := anc0;
    var below := IsAncestor(st, parent, ever, anc);
    if below {
      PromoteKeepsAncestry(ParentsOf(ever), anc, st, parent);
      PlaceIsNotBelow(ParentsOf(ever), anc, st, parent);
      anc := MoveUnder(parent, st.parent, ever, anc);
    }
    anc := MoveUnder(st, parent, ever, anc);
  }

  /** The place of an ancestor is not below the stream that takes it. */
  lemma PlaceIsNotBelow(par: Parents, anc: map<Stream, set<Stream>>, st: Stream, parent: Stream)
    requires Ancestry(par, anc) && st in par && parent in par && st in anc[parent]
    ensures var p := par[st]; p != null ==> p in par && p != parent && parent !in anc[p]
  {
    AncestorsOfAncestors(par, anc, parent, st);
  }

  /** After an exclusive change on an open parent, or on stream 0, no other open stream keeps
      that parent; the stream itself has it. */
  lemma ExclusiveIsAlone(par: Parents, anc: map<Stream, set<Stream>>, streams: map<nat, Stream>, streamID: nat,
                         p: PriorityParam)
    requires Ancestry(par, anc) && streams.Values <= par.Keys
    requires streamID in streams && p.exclusive
    requires p.streamDep == 0 || (p.streamDep in streams && streams[p.streamDep] != streams[streamID])
    requires 0 !in streams
    ensures var parent := if p.streamDep == 0 then null else streams[p.streamDep];
      var par' := Adjusted(par, anc, streams, streamID, p);
      && par'[streams[streamID]] == parent
      && forall id :: id in streams && streams[id] != streams[streamID] ==> par'[streams[id]] != parent
  {
  }

  // ---------------------------------------------------------------- runs

  lemma RootKeepsAncestry(par: Parents, anc: map<Stream, set<Stream>>, s: Stream)
    requires Ancestry(par, anc) && s !in par
    ensures Ancestry(par[s := null], anc[s := {}])
  {
  }

  /** What happens to priorities: a stream is opened, with or without a priority; one is closed; one
      is given a new priority. */
  datatype Change =
    | Open(id: nat)
    | Close(id: nat)
    | Prioritize(id: nat, p: PriorityParam)

  /** The open streams, and the parent pointers of all streams ever opened: a closed stream stays
      where others still point to it. */
  class Forest {
    const connFlow: Window
    var streams: map<nat, Stream>
    ghost var ever: set<Stream>
    ghost var anc: map<Stream, set<Stream>>

    ghost predicate Valid()
      reads this, ever
    {
      && connFlow.conn == null
      && (forall id :: id in streams ==> streams[id] in ever)
      && Ancestry(ParentsOf(ever), anc)
    }

    constructor (connFlow: Window)
      requires connFlow.conn == null
      ensures Valid() && streams == map[] && ever == {}
    {
      this.connFlow := connFlow;
      streams, ever, anc := map[], {}, map[];
    }

    /** A stream is opened as a root; its priority, if it has one, is the next change. */
    method OpenStream(id: nat)
      requires Valid()
      modifies this`streams, this`ever, this`anc
      ensures Valid() && id in streams && fresh(streams[id]) && streams[id].parent == null
      ensures ever == old(ever) + {streams[id]} && streams == old(streams)[id := streams[id]]
    {
      hide Ancestry;
      var st := new Stream(id, connFlow);
      RootKeepsAncestry(ParentsOf(ever), anc, st);
      ghost var par := ParentsOf(ever);
      ever := ever + {st};
      anc := anc[st := {}];
      assert ParentsOf(ever) == par[st := null];
      streams := streams[id := st];
    }

    method Reprioritize(id: nat, p: PriorityParam)
      requires Valid()
      modifies this`anc, ever`parent, ever`weight
      ensures Valid()
      ensures ParentsOf(ever) == Adjusted(old(ParentsOf(ever)), old(anc), streams, id, p)
    {
      anc := AdjustStreamPriority(streams, id, p, ever, anc);
    }

    /** Over every run of openings, closings and changes of priority there is never a cycle, so the
        source's walk up the parents ends. */
    method Run(changes: seq<Change>)
      requires Valid()
      modifies this, ever
      ensures Valid() && old(ever) <= ever && fresh(ever - old(ever))
    {
      for i := 0 to |changes|
        invariant Valid() && old(ever) <= ever && fresh(ever - old(ever))
      {
        match changes[i]
        case Open(id) => OpenStream(id);
        case Close(id) => streams := streams - {id};
        case Prioritize(id, p) => Reprioritize(id, p);
      }
    }
  }
}
