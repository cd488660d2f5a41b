/** The blocks table as a tree: parents, children, chains of descendants, and how the table may grow. */
module BlockTree {
  type Hash = string

  datatype BlockState = PENDING | CONFIRMED | INVALIDATED

  datatype Block = Block(number: int, hash: Hash, parentHash: Hash, state: BlockState)

  /** The blocks table, keyed by its unique hash column. */
  type Table = t: map<Hash, Block> | forall h <- t :: t[h].hash == h

  /** A block names its parent by hash, and a parent's number is one less. */
  ghost predicate Linked(t: Table) {
    forall h {:trigger LinkedAt(t, h)} :: LinkedAt(t, h)
  }

  ghost predicate LinkedAt(t: Table, h: Hash) {
    h in t && t[h].parentHash in t ==> t[h].number == t[t[h].parentHash].number + 1
  }

  ghost predicate IsChild(t: Table, c: Hash, h: Hash) {
    c in t && h in t && t[c].parentHash == h && t[c].number == t[h].number + 1
  }

  /** A path that steps from parent to child. */
  ghost predicate IsDescent(t: Table, p: seq<Hash>) {
    && |p| > 0
    && p[0] in t
    && forall i {:trigger StepsDown(t, p, i)} :: 0 <= i < |p| - 1 ==> StepsDown(t, p, i)
  }

  ghost predicate StepsDown(t: Table, p: seq<Hash>, i: int) {
    0 <= i < |p| - 1 && IsChild(t, p[i + 1], p[i])
  }

  /** h has a chain of d descendants. */
  ghost predicate HasChain(t: Table, h: Hash, d: nat) {
    exists p :: IsDescent(t, p) && p[0] == h && |p| == d + 1
  }

  /** a is b or an ancestor of b. */
  ghost predicate Descends(t: Table, a: Hash, b: Hash) {
    exists p :: IsDescent(t, p) && p[0] == a && p[|p| - 1] == b
  }

  /** s is a CONFIRMED block of the same height as q, other than q. */
  ghost predicate ConfirmedRival(t: Table, q: Hash, s: Hash) {
    q in t && s in t && s != q && t[s].number == t[q].number && t[s].state == CONFIRMED
  }

  ghost predicate HasConfirmedRival(t: Table, q: Hash) {
    exists s :: ConfirmedRival(t, q, s)
  }

  /** Some block on the way from the root down to h lost its height to a CONFIRMED block. */
  ghost predicate Doomed(t: Table, h: Hash) {
    exists q :: Descends(t, q, h) && HasConfirmedRival(t, q)
  }

  /** No two blocks of one height both have k descendants: no reorganisation is that deep. */
  ghost predicate NoDeepFork(t: Table, k: nat) {
    forall a, b {:trigger HasChain(t, a, k), HasChain(t, b, k)} ::
      a in t && b in t && t[a].number == t[b].number && HasChain(t, a, k) && HasChain(t, b, k) ==> a == b
  }

  /** Everything t records is still recorded in t', apart from states. */
  ghost predicate Grows(t: Table, t': Table) {
    forall h {:trigger SameBlock(t, t', h)} :: SameBlock(t, t', h)
  }

  ghost predicate SameBlock(t: Table, t': Table, h: Hash) {
    h in t ==> h in t' && t'[h].number == t[h].number && t'[h].parentHash == t[h].parentHash
  }

  /** What is settled in t is settled alike in t'. */
  ghost predicate KeepsSettled(t: Table, t': Table) {
    forall h {:trigger SettledAlike(t, t', h)} :: SettledAlike(t, t', h)
  }

  ghost predicate SettledAlike(t: Table, t': Table, h: Hash) {
    h in t && t[h].state != PENDING ==> h in t' && t'[h].state == t[h].state
  }

  /** The rows of hs take the given state, as `updateMany({ where: { hash: { in: hs } } })` does. */
  function SetStates(t: Table, hs: set<Hash>, state: BlockState): (t': Table)
    ensures t'.Keys == t.Keys
  {
    map h | h in t :: if h in hs then t[h].(state := state) else t[h]
  }

  lemma StateSet(t: Table, hs: set<Hash>, state: BlockState, h: Hash)
    requires h in t && h in hs
    ensures SetStates(t, hs, state)[h].state == state
  {
  }

  // ----- Paths -----

  lemma Step(t: Table, p: seq<Hash>, i: int)
    requires IsDescent(t, p) && 0 <= i < |p| - 1
    ensures IsChild(t, p[i + 1], p[i])
  {
    assert StepsDown(t, p, i);
  }

  lemma DescentInTable(t: Table, p: seq<Hash>)
    requires IsDescent(t, p)
    ensures forall h <- p :: h in t
  {
    forall i | 0 <= i < |p|
      ensures p[i] in t
    {
      if i > 0 {
        Step(t, p, i - 1);
      }
    }
  }

  lemma PartOfDescent(t: Table, p: seq<Hash>, i: int, j: int)
    requires IsDescent(t, p) && 0 <= i < j <= |p|
    ensures IsDescent(t, p[i..j])
  {
    var q := p[i..j];
    DescentInTable(t, p);
    forall m {:trigger StepsDown(t, q, m)} | 0 <= m < |q| - 1
      ensures StepsDown(t, q, m)
    {
      Step(t, p, i + m);
    }
  }

  lemma JoinDescents(t: Table, p: seq<Hash>, q: seq<Hash>)
    requires IsDescent(t, p) && IsDescent(t, q) && p[|p| - 1] == q[0]
    ensures IsDescent(t, p + q[1..])
    ensures (p + q[1..])[|p| + |q| - 2] == q[|q| - 1]
  {
    var r := p + q[1..];
    forall i {:trigger StepsDown(t, r, i)} | 0 <= i < |r| - 1
      ensures StepsDown(t, r, i)
    {
      if i < |p| - 1 {
        Step(t, p, i);
      } else {
        assert r[i] == q[i - |p| + 1] && r[i + 1] == q[i - |p| + 2];
        Step(t, q, i - |p| + 1);
      }
    }
  }

  lemma ChildDescent(t: Table, c: Hash, h: Hash)
    requires IsChild(t, c, h)
    ensures IsDescent(t, [h, c])
  {
  }

  lemma DescentFromParent(t: Table, h: Hash, q: seq<Hash>)
    requires IsDescent(t, q) && IsChild(t, q[0], h)
    ensures IsDescent(t, [h] + q)
  {
    ChildDescent(t, q[0], h);
    JoinDescents(t, [h, q[0]], q);
    assert [h, q[0]] + q[1..] == [h] + q;
  }

  lemma DescentToChild(t: Table, q: seq<Hash>, c: Hash)
    requires IsDescent(t, q) && IsChild(t, c, q[|q| - 1])
    ensures IsDescent(t, q + [c])
  {
    ChildDescent(t, c, q[|q| - 1]);
    JoinDescents(t, q, [q[|q| - 1], c]);
    assert q + [q[|q| - 1], c][1..] == q + [c];
  }

  lemma DescentGrows(t: Table, t': Table, p: seq<Hash>)
    requires Grows(t, t') && IsDescent(t, p)
    ensures IsDescent(t', p)
  {
    forall i {:trigger StepsDown(t', p, i)} | 0 <= i < |p| - 1
      ensures StepsDown(t', p, i)
    {
      Step(t, p, i);
      assert SameBlock(t, t', p[i]) && SameBlock(t, t', p[i + 1]);
    }
    assert SameBlock(t, t', p[0]);
  }

  // ----- Chains and ancestry -----

  lemma ChainGrows(t: Table, t': Table, h: Hash, d: nat)
    requires Grows(t, t') && HasChain(t, h, d)
    ensures HasChain(t', h, d)
  {
    var p :| IsDescent(t, p) && p[0] == h && |p| == d + 1;
    DescentGrows(t, t', p);
  }

  lemma DescendsGrows(t: Table, t': Table, a: Hash, b: Hash)
    requires Grows(t, t') && Descends(t, a, b)
    ensures Descends(t', a, b)
  {
    var p :| IsDescent(t, p) && p[0] == a && p[|p| - 1] == b;
    DescentGrows(t, t', p);
  }

  lemma RecordedParent(t: Table, h: Hash)
    requires Linked(t) && h in t && t[h].parentHash in t
    ensures IsChild(t, h, t[h].parentHash)
  {
    assert LinkedAt(t, h);
  }

  lemma SameLinks(t: Table, t': Table)
    requires Linked(t) && Grows(t, t') && t.Keys == t'.Keys
    ensures Linked(t')
  {
    forall h {:trigger LinkedAt(t', h)}
      ensures LinkedAt(t', h)
    {
      assert LinkedAt(t, h) && SameBlock(t, t', h);
      if h in t && t[h].parentHash in t {
        assert SameBlock(t, t', t[h].parentHash);
      }
    }
  }

  lemma ShorterChain(t: Table, h: Hash, d: nat, e: nat)
    requires HasChain(t, h, d) && e <= d
    ensures HasChain(t, h, e)
  {
    var p :| IsDescent(t, p) && p[0] == h && |p| == d + 1;
    PartOfDescent(t, p, 0, e + 1);
  }

  /** Chains child by child. */
  lemma ChainThroughChild(t: Table, h: Hash, d: nat)
    ensures HasChain(t, h, 0) <==> h in t
    ensures d > 0 ==> (HasChain(t, h, d) <==> exists c :: IsChild(t, c, h) && HasChain(t, c, d - 1))
  {
    assert h in t ==> IsDescent(t, [h]);
    if d > 0 && HasChain(t, h, d) {
      var p :| IsDescent(t, p) && p[0] == h && |p| == d + 1;
      Step(t, p, 0);
      PartOfDescent(t, p, 1, |p|);
      assert p[1..|p|][0] == p[1];
      assert HasChain(t, p[1], d - 1);
    }
    if c :| d > 0 && IsChild(t, c, h) && HasChain(t, c, d - 1) {
      var q :| IsDescent(t, q) && q[0] == c && |q| == d;
      DescentFromParent(t, h, q);
    }
  }

  /** An ancestor has every chain of its descendants. */
  lemma AncestorHasChain(t: Table, a: Hash, b: Hash, d: nat)
    requires Descends(t, a, b) && HasChain(t, b, d)
    ensures HasChain(t, a, d)
  {
    var p :| IsDescent(t, p) && p[0] == a && p[|p| - 1] == b;
    var q :| IsDescent(t, q) && q[0] == b && |q| == d + 1;
    JoinDescents(t, p, q);
    assert HasChain(t, a, |p| - 1 + d);
    ShorterChain(t, a, |p| - 1 + d, d);
  }

  lemma DescendsTransitive(t: Table, a: Hash, b: Hash, c: Hash)
    requires Descends(t, a, b) && Descends(t, b, c)
    ensures Descends(t, a, c)
  {
    var p :| IsDescent(t, p) && p[0] == a && p[|p| - 1] == b;
    var q :| IsDescent(t, q) && q[0] == b && q[|q| - 1] == c;
    JoinDescents(t, p, q);
  }

  lemma DescendsReflexive(t: Table, a: Hash)
    requires a in t
    ensures Descends(t, a, a)
  {
    assert IsDescent(t, [a]);
  }

  lemma DescendsToChild(t: Table, c: Hash, h: Hash)
    requires IsChild(t, c, h)
    ensures Descends(t, h, c)
  {
    ChildDescent(t, c, h);
  }
}
