/** Cancellation (net/context/context.go): contexts form a tree, and cancelling one cancels every
    context below it.  Each method is one atomic step; the source holds the locks it needs. */
module Context {

  datatype Err = Nil | Canceled | DeadlineExceeded

  datatype Kind = Empty | Cancel | Timer | Value

  class Ctx {
    const kind: Kind
    const parent: Ctx?
    // for a timer, when it expires
    const deadline: int
    // distance from the root; a context is made after its parent
    ghost const depth: nat
    var err: Err
    var children: set<Ctx>
    var timer: bool
    // how often the done channel has been closed
    ghost var closes: nat

    constructor (kind: Kind, parent: Ctx?, deadline: int)
      ensures this.kind == kind && this.parent == parent && this.deadline == deadline
      ensures depth == if parent == null then 0 else parent.depth + 1
      ensures err == Nil && children == {} && !timer && closes == 0
    {
      this.kind, this.parent, this.deadline := kind, parent, deadline;
      depth := if parent == null then 0 else parent.depth + 1;
      err, children, timer, closes := Nil, {}, false, 0;
    }

    predicate Cancelable() { kind == Cancel || kind == Timer }
  }

  // ---------------------------------------------------------------- the tree

  /** Every context of the package's own making has its parent among them, made before it. */
  ghost predicate Shape(all: set<Ctx>) {
    forall c :: c in all && c.parent != null ==> c.parent in all && c.parent.depth < c.depth
  }

  /** The nearest cancelable context at or above c. */
  ghost function Near(all: set<Ctx>, c: Ctx?): (p: Ctx?)
    requires Shape(all) && (c != null ==> c in all)
    ensures p != null ==> c != null && p in all && p.Cancelable() && p.depth <= c.depth
    decreases if c == null then 0 else c.depth + 1
  {
    if c == null || c.Cancelable() then c else Near(all, c.parent)
  }

  /** The nearest cancelable context strictly above c. */
  ghost function Up(all: set<Ctx>, c: Ctx): (p: Ctx?)
    requires Shape(all) && c in all
    ensures p != null ==> p in all && p.Cancelable() && p.depth < c.depth
  {
    Near(all, c.parent)
  }

  /** d is c or has it above. */
  ghost predicate Below(all: set<Ctx>, d: Ctx, c: Ctx)
    requires Shape(all) && d in all
    decreases d.depth
  {
    d == c || (Up(all, d) != null && Below(all, Up(all, d), c))
  }

  lemma {:induction false} BelowIsDeeper(all: set<Ctx>, d: Ctx, c: Ctx)
    requires Shape(all) && d in all && Below(all, d, c)
    ensures d == c || c.depth < d.depth
    decreases d.depth
  {
    if d != c { BelowIsDeeper(all, Up(all, d), c); }
  }

  /** What is below a child of c is below c. */
  lemma {:induction false} BelowChild(all: set<Ctx>, d: Ctx, k: Ctx, c: Ctx)
    requires Shape(all) && d in all && k in all && Up(all, k) == c && Below(all, d, k)
    ensures Below(all, d, c)
    decreases d.depth
  {
    if d != k { BelowChild(all, Up(all, d), k, c); }
  }

  /** Nothing is below two different children of c. */
  lemma {:induction false} ChildrenApart(all: set<Ctx>, d: Ctx, k: Ctx, k': Ctx, c: Ctx)
    requires Shape(all) && d in all && k in all && k' in all && k != k'
    requires Up(all, k) == c && Up(all, k') == c && Below(all, d, k)
    ensures !Below(all, d, k')
    decreases d.depth
  {
    if d == k {
      if Below(all, c, k') { BelowIsDeeper(all, c, k'); }
    } else if Below(all, d, k') {
      if d == k' {
        if Below(all, c, k) { BelowIsDeeper(all, c, k); }
      } else {
        ChildrenApart(all, Up(all, d), k, k', c);
      }
    }
  }

  // ---------------------------------------------------------------- what every step keeps

  /** The mutable part of a context. */
  datatype State = State(err: Err, closes: nat, children: set<Ctx>, timer: bool)

  type Snapshot = map<Ctx, State>

  /** The state of a context that has just been made. */
  ghost function Live(): State { State(Nil, 0, {}, false) }

  /** The state of one born with an error. */
  ghost function Dead(e: Err): State { State(e, 1, {}, false) }

  /** The state of one of these contexts; nothing is said of any other. */
  ghost function StateIn(all: set<Ctx>, c: Ctx): State
    reads all`err, all`children, all`closes, all`timer
  {
    if c in all then State(c.err, c.closes, c.children, c.timer) else Live()
  }

  ghost function Snap(all: set<Ctx>): (s: Snapshot)
    reads all`err, all`children, all`closes, all`timer
    ensures s.Keys == all
  {
    map c | c in all :: StateIn(all, c)
  }

  /** A live context is registered with the nearest cancelable one above it, which is live. */
  ghost predicate Linked(all: set<Ctx>, s: Snapshot, c: Ctx)
    requires Shape(all) && s.Keys == all && c in all
  {
    var p := Up(all, c);
    c.Cancelable() && s[c].err == Nil && p != null ==> s[p].err == Nil && c in s[p].children
  }

  /** The done channel of a context is closed once, when it gets its error; only live contexts below
      it are registered with it; only a live timer context has a running timer. */
  ghost predicate Sound(all: set<Ctx>, s: Snapshot, c: Ctx)
    requires Shape(all) && s.Keys == all && c in all
  {
    && s[c].closes == (if s[c].err == Nil then 0 else 1)
    && (s[c].err != Nil ==> s[c].children == {} && !s[c].timer)
    && (s[c].timer ==> c.kind == Timer)
    && (!c.Cancelable() ==> s[c].err == Nil && s[c].children == {})
    && forall k :: k in s[c].children ==> k in all && k.Cancelable() && Up(all, k) == c && s[k].err == Nil
  }

  ghost predicate Valid(all: set<Ctx>, s: Snapshot) {
    Shape(all) && s.Keys == all && forall c :: c in all ==> Linked(all, s, c) && Sound(all, s, c)
  }

  /** The subtree of c is in order, whatever is above. */
  ghost predicate SubtreeValid(all: set<Ctx>, s: Snapshot, c: Ctx)
    requires Shape(all) && s.Keys == all && c in all
  {
    && (forall d :: d in all && Below(all, d, c) ==> Sound(all, s, d))
    && (forall d :: d in all && d != c && Below(all, d, c) ==> Linked(all, s, d))
  }

  lemma WholeTree(all: set<Ctx>, s: Snapshot, c: Ctx)
    requires Valid(all, s) && c in all
    ensures SubtreeValid(all, s, c)
  {
  }

  /** Below a live context, everything live hangs from one of its registered children. */
  lemma {:induction false} LiveHangsFromChild(all: set<Ctx>, s: Snapshot, d: Ctx, c: Ctx) returns (k: Ctx)
    requires Shape(all) && s.Keys == all && d in all && c in all && SubtreeValid(all, s, c)
    requires Below(all, d, c) && d != c && d.Cancelable() && s[d].err == Nil
    ensures s[c].err == Nil && k in s[c].children && k in all && Up(all, k) == c && Below(all, d, k)
    decreases d.depth
  {
    var p := Up(all, d);
    assert Linked(all, s, d);
    if p == c {
      k := d;
    } else {
      k := LiveHangsFromChild(all, s, p, c);
    }
  }

  // ---------------------------------------------------------------- cancel

  /** d is at or below one of ks. */
  ghost predicate Under(all: set<Ctx>, d: Ctx, ks: set<Ctx>)
    requires Shape(all) && d in all
  {
    exists k :: k in ks && Below(all, d, k)
  }

  ghost function SweptState(all: set<Ctx>, d: Ctx, st: State, ks: set<Ctx>, e: Err): State
    requires Shape(all) && d in all
  {
    if d.Cancelable() && Under(all, d, ks) then Dead(if st.err == Nil then e else st.err) else st
  }

  /** What cancelling ks with e makes of the contexts: everything cancelable at or below them that
      was live has the error e, its channel closed and its timer stopped, and nothing else has changed. */
  ghost predicate Swept(all: set<Ctx>, s: Snapshot, s': Snapshot, ks: set<Ctx>, e: Err)
    requires Shape(all) && s.Keys == all && s'.Keys == all
  {
    forall d :: d in all ==> s'[d] == SweptState(all, d, s[d], ks, e)
  }

  lemma SweptNone(all: set<Ctx>, s: Snapshot, e: Err)
    requires Shape(all) && s.Keys == all
    ensures Swept(all, s, s, {}, e)
  {
  }

  /** Sweeping one more child of c after others. */
  lemma SweptOneMore(all: set<Ctx>, s0: Snapshot, s1: Snapshot, s2: Snapshot,
                                        done: set<Ctx>, k: Ctx, c: Ctx, e: Err)
    requires Shape(all) && s0.Keys == all && s1.Keys == all && s2.Keys == all
    requires Swept(all, s0, s1, done, e) && Swept(all, s1, s2, {k}, e)
    requires k in all && k !in done && Up(all, k) == c && forall x :: x in done ==> x in all && Up(all, x) == c
    ensures Swept(all, s0, s2, done + {k}, e)
  {
    forall d | d in all ensures s2[d] == SweptState(all, d, s0[d], done + {k}, e) {
      UnderOneMore(all, d, done, k, c);
      assert s1[d] == SweptState(all, d, s0[d], done, e) && s2[d] == SweptState(all, d, s1[d], {k}, e);
    }
  }

  lemma UnderOneMore(all: set<Ctx>, d: Ctx, done: set<Ctx>, k: Ctx, c: Ctx)
    requires Shape(all) && d in all && k in all && k !in done && Up(all, k) == c
    requires forall x :: x in done ==> x in all && Up(all, x) == c
    ensures Under(all, d, done + {k}) <==> Under(all, d, done) || Under(all, d, {k})
    ensures !(Under(all, d, done) && Under(all, d, {k}))
  {
    if Below(all, d, k) {
      assert k in {k} && k in done + {k};
      forall x | x in done ensures !Below(all, d, x) { ChildrenApart(all, d, k, x, c); }
    } else if Under(all, d, done) {
      var x :| x in done && Below(all, d, x);
      assert x in done + {k};
    }
  }

  /** A subtree none of whose contexts changed is still in order. */
  lemma {:induction false} SubtreeUntouched(all: set<Ctx>, s: Snapshot, s': Snapshot, c: Ctx)
    requires Shape(all) && s.Keys == all && s'.Keys == all && c in all && SubtreeValid(all, s, c)
    requires forall d :: d in all && Below(all, d, c) ==> s'[d] == s[d]
    ensures SubtreeValid(all, s', c)
  {
    forall d | d in all && Below(all, d, c) ensures Sound(all, s', d) {
      assert Sound(all, s, d);
      forall k | k in s[d].children ensures s'[k].err == Nil { assert Below(all, k, c); }
    }
    forall d | d in all && d != c && Below(all, d, c) ensures Linked(all, s', d) {
      assert Linked(all, s, d);
    }
  }

  /** Marking c itself leaves its children's subtrees as they were. */
  lemma ChildSubtrees(all: set<Ctx>, s: Snapshot, c: Ctx, st: State)
    requires Shape(all) && s.Keys == all && c in all && SubtreeValid(all, s, c)
    ensures s[c].closes == if s[c].err == Nil then 0 else 1
    ensures forall k :: k in s[c].children ==>
      k in all && k.Cancelable() && Up(all, k) == c && SubtreeValid(all, s[c := st], k)
  {
    assert Sound(all, s, c);
    forall k | k in s[c].children ensures SubtreeValid(all, s[c := st], k) {
      forall d | d in all && Below(all, d, k) ensures Below(all, d, c) && d != c {
        BelowChild(all, d, k, c);
        if d == c { BelowIsDeeper(all, c, k); }
      }
      SubtreeUntouched(all, s, s[c := st], k);
    }
  }

  /** Sweeping one child of c leaves the subtrees of the others as they were. */
  lemma OtherSubtrees(all: set<Ctx>, s: Snapshot, s': Snapshot, k: Ctx, c: Ctx, others: set<Ctx>, e: Err)
    requires Shape(all) && s.Keys == all && s'.Keys == all && k in all && Up(all, k) == c && k !in others
    requires Swept(all, s, s', {k}, e)
    requires forall x :: x in others ==> x in all && Up(all, x) == c && SubtreeValid(all, s, x)
    ensures forall x :: x in others ==> SubtreeValid(all, s', x)
  {
    forall x | x in others ensures SubtreeValid(all, s', x) {
      forall d | d in all && Below(all, d, x) ensures s'[d] == s[d] { ChildrenApart(all, d, x, k, c); }
      SubtreeUntouched(all, s, s', x);
    }
  }

  /** Marking c, sweeping its children and dropping them sweeps the whole subtree. */
  lemma SweptWhole(all: set<Ctx>, s: Snapshot, s': Snapshot, c: Ctx, e: Err)
    requires Shape(all) && c in all && c.Cancelable() && s.Keys == all && s'.Keys == all
    requires SubtreeValid(all, s, c) && s[c].err == Nil
    requires Swept(all, s[c := State(e, 1, s[c].children, s[c].timer)], s', s[c].children, e)
    ensures s'[c].closes == 1 && Swept(all, s, s'[c := Dead(s'[c].err)], {c}, e)
  {
    var s'' := s'[c := Dead(s'[c].err)];
    assert s'[c] == SweptState(all, c, State(e, 1, s[c].children, s[c].timer), s[c].children, e);
    forall d | d in all ensures s''[d] == SweptState(all, d, s[d], {c}, e) {
      SweptWholeAt(all, s, s', c, e, d);
    }
  }

  lemma SweptWholeAt(all: set<Ctx>, s: Snapshot, s': Snapshot, c: Ctx, e: Err, d: Ctx)
    requires Shape(all) && c in all && c.Cancelable() && s.Keys == all && s'.Keys == all
    requires SubtreeValid(all, s, c) && s[c].err == Nil && d in all
    requires Swept(all, s[c := State(e, 1, s[c].children, s[c].timer)], s', s[c].children, e)
    ensures (if d == c then Dead(s'[c].err) else s'[d]) == SweptState(all, d, s[d], {c}, e)
  {
    var ks := s[c].children;
    assert Sound(all, s, c);
    assert Under(all, d, {c}) <==> Below(all, d, c) by { assert c in {c}; }
    if Under(all, d, ks) {
      var k :| k in ks && Below(all, d, k);
      BelowChild(all, d, k, c);
      if d == c { BelowIsDeeper(all, c, k); }
    } else if d != c && Below(all, d, c) && d.Cancelable() {
      assert Sound(all, s, d);
      if s[d].err == Nil { var k := LiveHangsFromChild(all, s, d, c); }
    }
  }

  /** Cancelling what is already cancelled changes nothing. */
  lemma SweptDead(all: set<Ctx>, s: Snapshot, c: Ctx, e: Err)
    requires Shape(all) && c in all && s.Keys == all && SubtreeValid(all, s, c) && s[c].err != Nil
    ensures Swept(all, s, s, {c}, e)
  {
    forall d | d in all ensures s[d] == SweptState(all, d, s[d], {c}, e) {
      if d.Cancelable() && Below(all, d, c) {
        assert Sound(all, s, d);
        if s[d].err == Nil { var k := LiveHangsFromChild(all, s, d, c); }
      }
    }
  }

  /** cancelCtx.cancel without removal from the parent: it ends, because children are deeper. */
  method CancelDown(c: Ctx, e: Err, ghost all: set<Ctx>, ghost bound: nat)
    requires Shape(all) && c in all && c.Cancelable() && e != Nil
    requires forall d :: d in all ==> d.depth <= bound
    requires SubtreeValid(all, Snap(all), c)
    modifies all`err, all`children, all`closes, all`timer
    ensures Swept(all, old(Snap(all)), Snap(all), {c}, e)
    decreases bound - c.depth, 2
  {
    ghost var s := Snap(all);
    assert Sound(all, s, c);
    if c.err != Nil {
      SweptDead(all, s, c, e);
    } else {
      CancelLive(c, e, all, bound);
    }
  }

  /** The same for a live context. */
  method CancelLive(c: Ctx, e: Err, ghost all: set<Ctx>, ghost bound: nat)
    requires Shape(all) && c in all && c.Cancelable() && e != Nil && c.err == Nil
    requires forall d :: d in all ==> d.depth <= bound
    requires SubtreeValid(all, Snap(all), c)
    modifies all`err, all`children, all`closes, all`timer
    ensures Swept(all, old(Snap(all)), Snap(all), {c}, e)
    decreases bound - c.depth, 1
  {
    hide SubtreeValid, Swept, Shape, Up;
    ghost var s := Snap(all);
    ChildSubtrees(all, s, c, State(e, 1, c.children, c.timer));
    MarkDone(c, e, all);
    CancelChildren(c, e, all, bound);
    SweptWhole(all, s, Snap(all), c, e);
    Finish(c, all);
  }

  /** Sets the error and closes the channel. */
  method MarkDone(c: Ctx, e: Err, ghost all: set<Ctx>)
    requires c in all
    modifies c`err, c`closes
    ensures c.err == e && Snap(all) == old(Snap(all))[c := State(e, old(c.closes) + 1, c.children, c.timer)]
  {
    c.err := e;
    c.closes := c.closes + 1;
    assert Snap(all) == old(Snap(all))[c := State(e, old(c.closes) + 1, c.children, c.timer)];
  }

  method AddChild(p: Ctx, c: Ctx, ghost all: set<Ctx>)
    requires p in all
    modifies p`children
    ensures Snap(all) == old(Snap(all))[p := State(p.err, p.closes, old(p.children) + {c}, p.timer)]
  {
    p.children := p.children + {c};
    assert Snap(all) == old(Snap(all))[p := State(p.err, p.closes, old(p.children) + {c}, p.timer)];
  }

  /** Drops the children; then, as timerCtx.cancel does, stops the timer if there is one. */
  method Finish(c: Ctx, ghost all: set<Ctx>)
    requires c in all && c.closes == 1
    modifies c`children, c`timer
    ensures Snap(all) == old(Snap(all))[c := Dead(c.err)]
  {
    c.children := {};
    if c.timer { c.timer := false; }
    assert Snap(all) == old(Snap(all))[c := Dead(c.err)];
  }

  /** The end of WithDeadline: starts the timer. */
  method StartTimer(c: Ctx, ghost all: set<Ctx>)
    requires Valid(all, Snap(all)) && c in all && c.kind == Timer && c.err == Nil
    modifies c`timer
    ensures Valid(all, Snap(all)) && c.timer
  {
    ghost var s := Snap(all);
    c.timer := true;
    assert Snap(all) == s[c := s[c].(timer := true)];
    StartedKeepsValid(all, s, c);
  }

  /** A new context among the others, listed by the nearest cancelable one above it. */
  method Hang(c: Ctx, p: Ctx?, ghost all: set<Ctx>)
    requires Valid(all, Snap(all)) && New(all, c) && p == (if c.Cancelable() then Near(all, c.parent) else null)
    requires p != null ==> p.err == Nil
    modifies (if p == null then {} else {p})`children
    ensures Valid(all + {c}, Snap(all + {c}))
  {
    ghost var s := Snap(all);
    RegisterKeepsValid(all, s, c);
    SnapGrows(all, c);
    if p != null { AddChild(p, c, all + {c}); }
    assert Snap(all + {c}) == Registered(s, c, p);
  }

  /** A new context among the others, already cancelled. */
  method Bury(c: Ctx, e: Err, ghost all: set<Ctx>)
    requires Valid(all, Snap(all)) && New(all, c) && c.Cancelable() && e != Nil
    modifies c`err, c`closes
    ensures Valid(all + {c}, Snap(all + {c})) && c.err == e
  {
    ghost var s := Snap(all);
    BornDeadKeepsValid(all, s, c, e);
    SnapGrows(all, c);
    SetTwice(s, c, Live(), Dead(e));
    MarkDone(c, e, all + {c});
    assert Snap(all + {c}) == s[c := Dead(e)];
  }

  /** A context that has just been made, below one of the others. */
  ghost predicate New(all: set<Ctx>, c: Ctx)
    reads c`err, c`children, c`closes, c`timer
  {
    && c !in all && c.parent != null && c.parent in all && c.parent.depth < c.depth
    && c.err == Nil && c.children == {} && c.closes == 0 && !c.timer
  }

  /** The source's loop over the children. */
  method CancelChildren(c: Ctx, e: Err, ghost all: set<Ctx>, ghost bound: nat)
    requires Shape(all) && c in all && e != Nil
    requires forall d :: d in all ==> d.depth <= bound
    requires forall k :: k in c.children ==>
      k in all && k.Cancelable() && Up(all, k) == c && SubtreeValid(all, Snap(all), k)
    modifies all`err, all`children, all`closes, all`timer
    ensures Swept(all, old(Snap(all)), Snap(all), old(c.children), e)
    decreases bound - c.depth, 0
  {
    hide Swept, SubtreeValid, Shape, Snap;
    SweptNone(all, Snap(all), e);
    var todo := c.children;
    ghost var done: set<Ctx> := {};
    ghost var s0 := Snap(all);
    while todo != {}
      invariant todo !! done && todo + done == old(c.children)
      invariant forall k :: k in todo ==> SubtreeValid(all, Snap(all), k)
      invariant Swept(all, s0, Snap(all), done, e)
      decreases todo
    {
      var k :| k in todo;
      ghost var s1 := Snap(all);
      CancelDown(k, e, all, bound);
      SweptOneMore(all, s0, s1, Snap(all), done, k, c, e);
      OtherSubtrees(all, s1, Snap(all), k, c, todo - {k}, e);
      todo, done := todo - {k}, done + {k};
    }
    assert done == old(c.children);
  }

  // ---------------------------------------------------------------- making and cancelling contexts

  lemma {:induction false} NearGrows(all: set<Ctx>, all': set<Ctx>, c: Ctx?)
    requires Shape(all) && Shape(all') && all <= all' && (c != null ==> c in all)
    ensures Near(all, c) == Near(all', c)
    decreases if c == null then 0 else c.depth + 1
  {
    if c != null && !c.Cancelable() { NearGrows(all, all', c.parent); }
  }

  lemma {:induction false} NothingBelowNew(all: set<Ctx>, c: Ctx, d: Ctx)
    requires Shape(all) && Shape(all + {c}) && c !in all && d in all
    ensures !Below(all + {c}, d, c)
    decreases d.depth
  {
    NearGrows(all, all + {c}, d.parent);
    if Up(all, d) != null { NothingBelowNew(all, c, Up(all, d)); }
  }

  /** The states after c is made and registered where it is live. */
  ghost function Registered(s: Snapshot, c: Ctx, p: Ctx?): Snapshot
    requires p != null ==> p in s
  {
    var s' := s[c := Live()];
    if p == null then s' else s'[p := s[p].(children := s[p].children + {c})]
  }

  lemma SetTwice(s: Snapshot, c: Ctx, first: State, last: State)
    ensures s[c := first][c := last] == s[c := last]
  {
  }

  /** What a snapshot says of the contexts. */
  lemma SnapTells(all: set<Ctx>, s: Snapshot)
    requires Snap(all) == s
    ensures forall d :: d in all ==> d in s && d.err == s[d].err && d.timer == s[d].timer
  {
    forall d | d in all ensures d in s && d.err == s[d].err && d.timer == s[d].timer {
      assert Snap(all)[d] == StateIn(all, d);
    }
  }

  lemma SnapGrows(all: set<Ctx>, c: Ctx)
    requires c !in all
    ensures Snap(all + {c}) == Snap(all)[c := State(c.err, c.closes, c.children, c.timer)]
  {
  }

  /** A new context, registered with a live one above it or having none, keeps everything in order. */
  lemma {:induction false} RegisterKeepsValid(all: set<Ctx>, s: Snapshot, c: Ctx)
    requires Valid(all, s) && c !in all && c.parent != null && c.parent in all && c.parent.depth < c.depth
    requires var p := Near(all, c.parent); p != null && c.Cancelable() ==> s[p].err == Nil
    ensures var p := if c.Cancelable() then Near(all, c.parent) else null;
      Valid(all + {c}, Registered(s, c, p))
  {
    var all' := all + {c};
    var p := if c.Cancelable() then Near(all, c.parent) else null;
    var s' := Registered(s, c, p);
    forall d | d in all ensures Up(all', d) == Up(all, d) { NearGrows(all, all', d.parent); }
    NearGrows(all, all', c.parent);
    forall d | d in all' ensures Linked(all', s', d) && Sound(all', s', d) {
      if d in all {
        assert Linked(all, s, d) && Sound(all, s, d);
        RegisteredAt(all, s, c, p, d);
      }
    }
  }

  /** An older context after c is registered with p. */
  lemma RegisteredAt(all: set<Ctx>, s: Snapshot, c: Ctx, p: Ctx?, d: Ctx)
    requires Shape(all) && s.Keys == all && Shape(all + {c}) && c !in all && d in all
    requires forall x :: x in all ==> Up(all + {c}, x) == Up(all, x)
    requires p != null ==> p in all && c.Cancelable() && p == Up(all + {c}, c) && p.Cancelable() && s[p].err == Nil
    requires Linked(all, s, d) && Sound(all, s, d)
    ensures Linked(all + {c}, Registered(s, c, p), d) && Sound(all + {c}, Registered(s, c, p), d)
  {
    var s' := Registered(s, c, p);
    assert forall x :: x in all ==> s'[x].err == s[x].err && s[x].children <= s'[x].children;
  }

  /** A new context below a cancelled one is born cancelled, with the same error. */
  lemma BornDeadKeepsValid(all: set<Ctx>, s: Snapshot, c: Ctx, e: Err)
    requires Valid(all, s) && c !in all && c.parent != null && c.parent in all && c.parent.depth < c.depth
    requires c.Cancelable() && e != Nil
    ensures Valid(all + {c}, s[c := Dead(e)])
  {
    var all', s' := all + {c}, s[c := Dead(e)];
    forall d | d in all ensures Up(all', d) == Up(all, d) { NearGrows(all, all', d.parent); }
    NearGrows(all, all', c.parent);
    forall d | d in all' ensures Linked(all', s', d) && Sound(all', s', d) {
      if d in all { assert Linked(all, s, d) && Sound(all, s, d); }
    }
  }

  /** Starting the timer of a live timer context keeps everything in order. */
  lemma StartedKeepsValid(all: set<Ctx>, s: Snapshot, c: Ctx)
    requires Valid(all, s) && c in all && c.kind == Timer && s[c].err == Nil
    ensures Valid(all, s[c := s[c].(timer := true)])
  {
    var s' := s[c := s[c].(timer := true)];
    forall d | d in all ensures Linked(all, s', d) && Sound(all, s', d) {
      assert Linked(all, s, d) && Sound(all, s, d);
    }
  }

  /** The states after c is cancelled and taken from its parent's children. */
  ghost function Dropped(all: set<Ctx>, s: Snapshot, c: Ctx): Snapshot
    requires Shape(all) && s.Keys == all && c in all
  {
    var p := Up(all, c);
    if p == null then s else s[p := s[p].(children := s[p].children - {c})]
  }

  /** Cancelling a context keeps the whole tree in order. */
  lemma CancelKeepsValid(all: set<Ctx>, s: Snapshot, s': Snapshot, c: Ctx, e: Err)
    requires Valid(all, s) && s'.Keys == all && c in all && c.Cancelable() && e != Nil && Swept(all, s, s', {c}, e)
    ensures Valid(all, Dropped(all, s', c))
  {
    var s'' := Dropped(all, s', c);
    forall d | d in all ensures Linked(all, s'', d) && Sound(all, s'', d) {
      CancelKeepsAt(all, s, s', c, e, d);
    }
  }

  lemma CancelKeepsAt(all: set<Ctx>, s: Snapshot, s': Snapshot, c: Ctx, e: Err, d: Ctx)
    requires Valid(all, s) && s'.Keys == all && c in all && c.Cancelable() && e != Nil && Swept(all, s, s', {c}, e)
    requires d in all
    ensures Linked(all, Dropped(all, s', c), d) && Sound(all, Dropped(all, s', c), d)
  {
    UnderOne(all, c);
    assert Linked(all, s, d) && Sound(all, s, d);
    if Below(all, d, c) {
      assert s'[d] == SweptState(all, d, s[d], {c}, e);
    } else {
      assert forall x :: x in all && !Below(all, x, c) ==> s'[x] == s[x];
      CancelKeepsOutside(all, s, s', c, d);
    }
  }

  /** Outside the subtree of c nothing has changed but the children of the one above c. */
  lemma {:induction false} CancelKeepsOutside(all: set<Ctx>, s: Snapshot, s': Snapshot, c: Ctx, d: Ctx)
    requires Shape(all) && s.Keys == all && s'.Keys == all && c in all && d in all && !Below(all, d, c)
    requires Linked(all, s, d) && Sound(all, s, d)
    requires forall x :: x in all && !Below(all, x, c) ==> s'[x] == s[x]
    ensures Linked(all, Dropped(all, s', c), d) && Sound(all, Dropped(all, s', c), d)
  {
    var s'' := Dropped(all, s', c);
    var p := Up(all, d);
    assert p != null ==> !Below(all, p, c);
    assert s''[d].children == if d == Up(all, c) then s[d].children - {c} else s[d].children;
    forall k | k in s''[d].children ensures s''[k].err == s[k].err {
      assert !Below(all, k, c);
    }
  }

  lemma {:induction false} UnderOne(all: set<Ctx>, c: Ctx)
    requires Shape(all)
    ensures forall x :: x in all ==> (Under(all, x, {c}) <==> Below(all, x, c))
  {
    forall x | x in all ensures Under(all, x, {c}) <==> Below(all, x, c) {
      if Below(all, x, c) { assert c in {c}; }
    }
  }

  /** Whose error a cancellation of c with e sets, and to what. */
  ghost function ErrAfter(all: set<Ctx>, d: Ctx, old_: Err, c: Ctx, e: Err): Err
    requires Shape(all) && d in all
  {
    if d.Cancelable() && Below(all, d, c) && old_ == Nil then e else old_
  }

  lemma SweptErrors(all: set<Ctx>, s: Snapshot, s': Snapshot, c: Ctx, e: Err)
    requires Shape(all) && s.Keys == all && s'.Keys == all && c in all && e != Nil && Swept(all, s, s', {c}, e)
    requires forall d :: d in all ==> Sound(all, s, d)
    ensures forall d :: d in all ==> Dropped(all, s', c)[d].err == ErrAfter(all, d, s[d].err, c, e)
    ensures forall d :: d in all ==> (Dropped(all, s', c)[d].timer <==> s[d].timer && Dropped(all, s', c)[d].err == Nil)
  {
    UnderOne(all, c);
    forall d | d in all
      ensures Dropped(all, s', c)[d].err == ErrAfter(all, d, s[d].err, c, e)
      ensures Dropped(all, s', c)[d].timer <==> s[d].timer && Dropped(all, s', c)[d].err == Nil
    {
      assert Sound(all, s, d);
      assert Dropped(all, s', c)[d].err == s'[d].err && Dropped(all, s', c)[d].timer == s'[d].timer;
    }
  }

  ghost predicate Armed(ds: set<Ctx>)
    reads ds`err, ds`timer
  {
    forall d :: d in ds && d.kind == Timer && d.err == Nil ==> d.timer
  }

  /** All the contexts made from one background context. */
  class Contexts {
    const background: Ctx
    ghost var all: set<Ctx>

    ghost predicate Tree()
      reads this, all`err, all`children, all`closes, all`timer
    {
      background in all && Valid(all, Snap(all))
    }

    /** Between two steps, besides, every live timer context has a running timer. */
    ghost predicate Ok()
      reads this, all`err, all`children, all`closes, all`timer
    {
      Tree() && Armed(all)
    }

    constructor ()
      ensures Ok() && fresh(all) && all == {background} && background.kind == Empty
    {
      background := new Ctx(Empty, null, 0);
      new;
      all := {background};
      assert Snap(all) == map[background := Live()];
    }

    /** parentCancelCtx: follows value contexts up to a cancelable one. */
    method ParentCancelCtx(parent: Ctx?) returns (p: Ctx?)
      requires Shape(all) && (parent != null ==> parent in all)
      ensures p == Near(all, parent)
    {
      p := parent;
      while p != null && !p.Cancelable()
        invariant p != null ==> p in all
        invariant Near(all, p) == Near(all, parent)
        decreases if p == null then 0 else p.depth + 1
      {
        p := p.parent;
      }
    }

    /** removeChild. */
    method RemoveChild(c: Ctx)
      requires Shape(all) && c in all
      modifies all`children
      ensures Snap(all) == Dropped(all, old(Snap(all)), c)
    {
      var p := ParentCancelCtx(c.parent);
      if p != null { p.children := p.children - {c}; }
    }

    /** A CancelFunc, or an expired timer: every live context at or below c gets the error e and has
        its timer stopped; those that had an error keep it. */
    method CancelCtx(c: Ctx, e: Err)
      requires Tree() && c in all && c.Cancelable() && e != Nil
      modifies all`err, all`children, all`closes, all`timer
      ensures Tree()
      ensures forall d :: d in all ==> d.err == ErrAfter(all, d, old(d.err), c, e)
      ensures forall d :: d in all ==> (d.timer <==> old(d.timer) && d.err == Nil)
    {
      hide Swept, Shape, Up, ErrAfter;
      ghost var s := Snap(all);
      WholeTree(all, s, c);
      CancelDown(c, e, all, Deepest(all));
      ghost var s' := Snap(all);
      CancelKeepsValid(all, s, s', c, e);
      SweptErrors(all, s, s', c, e);
      RemoveChild(c);
      SnapTells(all, Dropped(all, s', c));
    }

    /** A new context below a live one, or below none that can be cancelled. */
    method Register(c: Ctx, p: Ctx?)
      requires Tree() && New(all, c) && c.Cancelable() && p == Near(all, c.parent) && (p != null ==> p.err == Nil)
      modifies this`all, all`children
      ensures Tree() && all == old(all) + {c} && forall d :: d in old(all) ==> d.err == old(d.err)
    {
      hide Valid, Snap, Shape;
      Hang(c, p, all);
      all := all + {c};
    }

    /** A new context below a cancelled one. */
    method CancelAtBirth(c: Ctx, e: Err)
      requires Tree() && New(all, c) && c.Cancelable() && e != Nil
      modifies this`all, c`err, c`closes
      ensures Tree() && all == old(all) + {c} && c.err == e && forall d :: d in old(all) ==> d.err == old(d.err)
    {
      hide Valid, Snap, Shape;
      Bury(c, e, all);
      all := all + {c};
    }

    /** propagateCancel: registers a new context with a live one above it, or cancels it at once. */
    method Propagate(c: Ctx)
      requires Tree() && New(all, c) && c.Cancelable()
      modifies this`all, all`children, c`err, c`closes
      ensures Tree() && all == old(all) + {c} && Shape(old(all))
      ensures var p := old(Near(all, c.parent)); c.err == if p == null then Nil else p.err
      ensures forall d :: d in old(all) ==> d.err == old(d.err)
    {
      var p := ParentCancelCtx(c.parent);
      if p != null && p.err != Nil {
        CancelAtBirth(c, p.err);
      } else {
        Register(c, p);
      }
    }

    /** newCancelCtx and propagateCancel. */
    method Make(kind: Kind, parent: Ctx, deadline: int) returns (c: Ctx)
      requires Ok() && parent in all && (kind == Cancel || kind == Timer)
      modifies this`all, all`children
      ensures Tree() && fresh(c) && all == old(all) + {c} && Shape(old(all)) && Armed(old(all))
      ensures c.kind == kind && c.parent == parent && c.deadline == deadline && !c.timer
      ensures var p := old(Near(all, parent)); c.err == if p == null then Nil else p.err
      ensures forall d :: d in old(all) ==> d.err == old(d.err)
    {
      hide Snap;
      c := new Ctx(kind, parent, deadline);
      Propagate(c);
    }

    method WithCancel(parent: Ctx) returns (c: Ctx)
      requires Ok() && parent in all
      modifies this`all, all`children
      ensures Ok() && fresh(c) && all == old(all) + {c} && c.kind == Cancel && c.parent == parent && !c.timer
      ensures var p := old(Near(all, parent)); c.err == if p == null then Nil else p.err
      ensures forall d :: d in old(all) ==> d.err == old(d.err)
    {
      c := Make(Cancel, parent, 0);
    }

    /** A timer context whose deadline is past is cancelled at once. */
    method ExpireNew(c: Ctx, ghost before: set<Ctx>)
      requires Tree() && c.Cancelable() && Shape(before) && c !in before && all == before + {c} && Armed(before)
      modifies all`err, all`children, all`closes, all`timer
      ensures Ok() && c.err == if old(c.err) == Nil then DeadlineExceeded else old(c.err)
      ensures forall d :: d in before ==> d.err == old(d.err)
    {
      forall d | d in before ensures !Below(all, d, c) { NothingBelowNew(before, c, d); }
      CancelCtx(c, DeadlineExceeded);
    }

    /** A timer context: cancelled at once if its deadline is past, else armed while it is live. */
    method NewTimer(parent: Ctx, deadline: int, now: int) returns (c: Ctx)
      requires Ok() && parent in all
      modifies this`all, all`err, all`children, all`closes, all`timer
      ensures Ok() && fresh(c) && all == old(all) + {c} && c.kind == Timer && c.parent == parent
      ensures c.deadline == deadline
      ensures var p := old(Near(all, parent));
        c.err == if p != null && old(p.err) != Nil then old(p.err)
                 else if deadline <= now then DeadlineExceeded else Nil
      ensures forall d :: d in old(all) ==> d.err == old(d.err)
    {
      c := Make(Timer, parent, deadline);
      Arm(c, deadline, now, old(all));
    }

    /** The end of WithDeadline. */
    method Arm(c: Ctx, deadline: int, now: int, ghost before: set<Ctx>)
      requires Tree() && c.kind == Timer && Shape(before) && c !in before && all == before + {c} && Armed(before)
      modifies all`err, all`children, all`closes, all`timer
      ensures Ok()
      ensures c.err == if old(c.err) == Nil && deadline <= now then DeadlineExceeded else old(c.err)
      ensures forall d :: d in before ==> d.err == old(d.err)
    {
      if deadline <= now {
        ExpireNew(c, before);
      } else if c.err == Nil {
        StartTimer(c, all);
      }
    }

    /** WithDeadline, at time now: an earlier deadline above makes it a plain cancelable context. */
    method WithDeadline(parent: Ctx, deadline: int, now: int) returns (c: Ctx)
      requires Ok() && parent in all
      modifies this`all, all`err, all`children, all`closes, all`timer
      ensures Ok() && fresh(c) && all == old(all) + {c} && c.Cancelable() && c.parent == parent
      ensures c.kind == Timer ==> c.deadline == deadline
      ensures c.kind == Cancel <==> EarlierDeadline(old(all), parent, deadline)
      ensures var p := old(Near(all, parent));
        c.err == if p != null && old(p.err) != Nil then old(p.err)
                 else if c.kind == Timer && deadline <= now then DeadlineExceeded else Nil
      ensures forall d :: d in old(all) ==> d.err == old(d.err)
    {
      var found, cur := DeadlineOf(parent);
      if found && cur < deadline {
        c := WithCancel(parent);
      } else {
        c := NewTimer(parent, deadline, now);
      }
    }

    /** parent.Deadline(): that of the nearest timer at or above. */
    method DeadlineOf(parent: Ctx) returns (found: bool, deadline: int)
      requires Shape(all) && parent in all
      ensures found <==> Timed(all, parent) != null
      ensures found ==> deadline == Timed(all, parent).deadline
    {
      var p: Ctx? := parent;
      while p != null && p.kind != Timer
        invariant p != null ==> p in all
        invariant Timed(all, p) == Timed(all, parent)
        decreases if p == null then 0 else p.depth + 1
      {
        p := p.parent;
      }
      found := p != null;
      deadline := if p != null then p.deadline else 0;
    }

    method WithValue(parent: Ctx) returns (c: Ctx)
      requires Ok() && parent in all
      modifies this`all
      ensures Ok() && fresh(c) && all == old(all) + {c} && c.kind == Value && c.parent == parent
      ensures forall d :: d in old(all) ==> d.err == old(d.err)
    {
      hide Valid, Snap, Shape;
      c := new Ctx(Value, parent, 0);
      Hang(c, null, all);
      all := all + {c};
    }

    /** One call by a user of the package, or a timer that expires. */
    method Step(act: Act, made: seq<Ctx>) returns (c: Ctx)
      requires Ok() && forall k :: 0 <= k < |made| ==> made[k] in all
      modifies this`all, all`err, all`children, all`closes, all`timer
      ensures Ok() && c in all && old(all) <= all && fresh(all - old(all))
      ensures forall d :: d in old(all) ==> d.err == old(d.err) || (old(d.err) == Nil && act.CancelAt?)
    {
      c := background;
      if act.at < |made| {
        var at := made[act.at];
        match act
        case NewCancel(_) => c := WithCancel(at);
        case NewDeadline(_, deadline, now) => c := WithDeadline(at, deadline, now);
        case NewValue(_) => c := WithValue(at);
        case CancelAt(_, e) =>
          if at.Cancelable() && e != Nil { CancelCtx(at, e); }
      }
    }

    /** Over every run the tree stays in order, a timer runs exactly while its context is live, and an
        error once set never changes. */
    method Run(acts: seq<Act>)
      requires Ok()
      modifies this`all, all`err, all`children, all`closes, all`timer
      ensures Ok() && old(all) <= all && fresh(all - old(all))
      ensures forall d :: d in old(all) && old(d.err) != Nil ==> d.err == old(d.err)
    {
      hide Valid, Snap;
      var made := [background];
      for i := 0 to |acts|
        invariant Ok() && old(all) <= all && fresh(all - old(all))
        invariant forall k :: 0 <= k < |made| ==> made[k] in all
        invariant forall d :: d in old(all) && old(d.err) != Nil ==> d.err == old(d.err)
      {
        var c := Step(acts[i], made);
        made := made + [c];
      }
    }
  }

  /** What happens to contexts; at says which of those made so far is meant. */
  datatype Act =
    | NewCancel(at: nat)
    | NewDeadline(at: nat, deadline: int, now: int)
    | NewValue(at: nat)
    | CancelAt(at: nat, e: Err)

  /** The nearest timer at or above c. */
  ghost function Timed(all: set<Ctx>, c: Ctx?): (t: Ctx?)
    requires Shape(all) && (c != null ==> c in all)
    ensures t != null ==> t in all && t.kind == Timer
    decreases if c == null then 0 else c.depth + 1
  {
    if c == null || c.kind == Timer then c else Timed(all, c.parent)
  }

  ghost predicate EarlierDeadline(all: set<Ctx>, c: Ctx, deadline: int)
    requires Shape(all) && c in all
  {
    Timed(all, c) != null && Timed(all, c).deadline < deadline
  }

  ghost function Deepest(all: set<Ctx>): (bound: nat)
    ensures forall d :: d in all ==> d.depth <= bound
  {
    if all == {} then 0 else
    var c :| c in all;
    var rest := Deepest(all - {c});
    if rest < c.depth then c.depth else rest
  }
}