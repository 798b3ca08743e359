/** The authorization policy: a list of workload entries compiled into nested maps. */
module Policy {
  import opened Basics
  import opened Jobs

  datatype Operation = MaySign | MayVerify | MayEncrypt | MayDecrypt | MayGetPublicKey

  datatype Grant = Grant(key: Label, operations: seq<Operation>)

  datatype Workload = Workload(identity: string, grants: seq<Grant>)

  type Keys = map<Label, set<Operation>>

  type Policy = map<string, Keys>

  predicate IsAllowed(p: Policy, identity: string, key: Label, op: Operation) {
    identity in p && key in p[identity] && op in p[identity][key]
  }

  // ----- Compilation -----

  function AddGrant(keys: Keys, g: Grant): Keys {
    keys[g.key := (if g.key in keys then keys[g.key] else {}) + set op | op in g.operations]
  }

  function AddGrants(keys: Keys, gs: seq<Grant>): Keys {
    if gs == [] then keys else AddGrant(AddGrants(keys, Front(gs)), Last(gs))
  }

  function AddWorkload(p: Policy, w: Workload): Policy {
    p[w.identity := AddGrants(if w.identity in p then p[w.identity] else map[], w.grants)]
  }

  function Compiled(ws: seq<Workload>): Policy {
    if ws == [] then map[] else AddWorkload(Compiled(Front(ws)), Last(ws))
  }

  /** The two nested loops of `parse`. */
  method Compile(ws: seq<Workload>) returns (grants: Policy)
    ensures grants == Compiled(ws)
  {
    grants := map[];
    for a := 0 to |ws|
      invariant grants == Compiled(ws[..a])
    {
      var workload := ws[a];
      var perKey: Keys := if workload.identity in grants then grants[workload.identity] else map[];
      ghost var before := perKey;
      for b := 0 to |workload.grants|
        invariant perKey == AddGrants(before, workload.grants[..b])
      {
        var grant := workload.grants[b];
        var ops := if grant.key in perKey then perKey[grant.key] else {};
        perKey := perKey[grant.key := ops + set op | op in grant.operations];
        assert Front(workload.grants[..b + 1]) == workload.grants[..b];
      }
      assert workload.grants[..|workload.grants|] == workload.grants;
      grants := grants[workload.identity := perKey];
      assert Front(ws[..a + 1]) == ws[..a];
    }
    assert ws[..|ws|] == ws;
  }

  // ----- What the entries say -----

  ghost predicate Names(ws: seq<Workload>, identity: string) {
    exists w | w in ws :: w.identity == identity
  }

  ghost predicate ListsKey(gs: seq<Grant>, key: Label) {
    exists g | g in gs :: g.key == key
  }

  ghost predicate ListsOp(gs: seq<Grant>, key: Label, op: Operation) {
    exists g | g in gs :: g.key == key && op in g.operations
  }

  ghost predicate NamesKey(ws: seq<Workload>, identity: string, key: Label) {
    exists w | w in ws :: w.identity == identity && ListsKey(w.grants, key)
  }

  /** Some entry grants the operation. */
  ghost predicate Granted(ws: seq<Workload>, identity: string, key: Label, op: Operation) {
    exists w | w in ws :: w.identity == identity && ListsOp(w.grants, key, op)
  }

  lemma InFront<T>(s: seq<T>, x: T)
    requires s != []
    ensures x in s <==> x in Front(s) || x == Last(s)
  {
    assert s == Front(s) + [Last(s)];
  }

  lemma {:induction false} GrantsExact(keys: Keys, gs: seq<Grant>, key: Label, op: Operation)
    ensures key in AddGrants(keys, gs) <==> key in keys || ListsKey(gs, key)
    ensures key in AddGrants(keys, gs) && op in AddGrants(keys, gs)[key] <==>
            (key in keys && op in keys[key]) || ListsOp(gs, key, op)
  {
    if gs != [] {
      GrantsExact(keys, Front(gs), key, op);
      forall g ensures g in gs <==> g in Front(gs) || g == Last(gs) { InFront(gs, g); }
    }
  }

  /** Every cell of the compiled policy is what the entries say, for any order and any
      duplication of entries. */
  lemma {:induction false} CompilationIsExact(ws: seq<Workload>, identity: string, key: Label, op: Operation)
    ensures identity in Compiled(ws) <==> Names(ws, identity)
    ensures identity in Compiled(ws) && key in Compiled(ws)[identity] <==> NamesKey(ws, identity, key)
    ensures IsAllowed(Compiled(ws), identity, key, op) <==> Granted(ws, identity, key, op)
  {
    if ws != [] {
      var front, w := Front(ws), Last(ws);
      CompilationIsExact(front, identity, key, op);
      var earlier: Keys := if w.identity in Compiled(front) then Compiled(front)[w.identity] else map[];
      GrantsExact(earlier, w.grants, key, op);
      forall v ensures v in ws <==> v in front || v == w { InFront(ws, v); }
    }
  }

  /** Two sources that name the same identities, keys and grants compile to the same policy. */
  lemma MeaningDetermines(ws: seq<Workload>, vs: seq<Workload>)
    requires forall i :: Names(ws, i) <==> Names(vs, i)
    requires forall i, k :: NamesKey(ws, i, k) <==> NamesKey(vs, i, k)
    requires forall i, k, o :: Granted(ws, i, k, o) <==> Granted(vs, i, k, o)
    ensures Compiled(ws) == Compiled(vs)
  {
    var p, q := Compiled(ws), Compiled(vs);
    forall i ensures i in p <==> i in q {
      CompilationIsExact(ws, i, "", MaySign);
      CompilationIsExact(vs, i, "", MaySign);
    }
    forall i | i in p ensures p[i] == q[i] {
      forall k ensures k in p[i] <==> k in q[i] {
        CompilationIsExact(ws, i, k, MaySign);
        CompilationIsExact(vs, i, k, MaySign);
      }
      forall k | k in p[i] ensures p[i][k] == q[i][k] {
        forall o ensures o in p[i][k] <==> o in q[i][k] {
          CompilationIsExact(ws, i, k, o);
          CompilationIsExact(vs, i, k, o);
        }
      }
    }
  }

  /** Reordering entries changes nothing. */
  lemma OrderIsIrrelevant(ws: seq<Workload>, vs: seq<Workload>)
    requires multiset(ws) == multiset(vs)
    ensures Compiled(ws) == Compiled(vs)
  {
    forall w ensures w in ws <==> w in vs {
      assert w in ws <==> w in multiset(ws);
      assert w in vs <==> w in multiset(vs);
    }
    MeaningDetermines(ws, vs);
  }

  /** Splitting an entry's grants over two entries of the same identity changes nothing. */
  lemma SplittingIsIrrelevant(before: seq<Workload>, identity: string, g: seq<Grant>, h: seq<Grant>, after: seq<Workload>)
    ensures Compiled(before + [Workload(identity, g + h)] + after) ==
            Compiled(before + [Workload(identity, g), Workload(identity, h)] + after)
  {
    var whole, left, right := Workload(identity, g + h), Workload(identity, g), Workload(identity, h);
    var ws, vs := before + [whole] + after, before + [left, right] + after;
    assert whole in ws && left in vs && right in vs;
    forall k, o
      ensures ListsKey(g + h, k) <==> ListsKey(g, k) || ListsKey(h, k)
      ensures ListsOp(g + h, k, o) <==> ListsOp(g, k, o) || ListsOp(h, k, o)
    {
      assert forall x :: x in g + h <==> x in g || x in h;
    }
    forall w ensures w in ws <==> w in before || w == whole || w in after {}
    forall w ensures w in vs <==> w in before || w == left || w == right || w in after {}
    MeaningDetermines(ws, vs);
  }

  // ----- Counting grants -----

  ghost function Tagged<A, B>(tag: A, s: set<B>): set<(A, B)> {
    set x | x in s :: (tag, x)
  }

  lemma {:induction false} TaggedSize<A, B>(tag: A, s: set<B>)
    ensures |Tagged(tag, s)| == |s|
  {
    if s != {} {
      var x :| x in s;
      TaggedSize(tag, s - {x});
      assert Tagged(tag, s) == Tagged(tag, s - {x}) + {(tag, x)};
    }
  }

  function KeyOps(keys: Keys, among: set<Label>): set<(Label, Operation)> {
    set k, o | k in keys && k in among && o in keys[k] :: (k, o)
  }

  /** The distinct (identity, key, operation) triples of a policy. */
  function Triples(p: Policy, among: set<string>): set<(string, (Label, Operation))> {
    set i, q | i in p && i in among && q in KeyOps(p[i], p[i].Keys) :: (i, q)
  }

  lemma OneMoreKey(keys: Keys, among: set<Label>, k: Label)
    requires k in keys && k !in among
    ensures |KeyOps(keys, among + {k})| == |KeyOps(keys, among)| + |keys[k]|
  {
    TaggedSize(k, keys[k]);
    assert KeyOps(keys, among + {k}) == KeyOps(keys, among) + Tagged(k, keys[k]);
  }

  lemma OneMoreIdentity(p: Policy, among: set<string>, i: string)
    requires i in p && i !in among
    ensures |Triples(p, among + {i})| == |Triples(p, among)| + |KeyOps(p[i], p[i].Keys)|
  {
    var pairs := KeyOps(p[i], p[i].Keys);
    TaggedSize(i, pairs);
    var before, added, after := Triples(p, among), Tagged(i, pairs), Triples(p, among + {i});
    forall t ensures t in after <==> t in before || t in added {}
    assert after == before + added;
    assert before !! added;
  }

  method CountKeyOps(keys: Keys) returns (n: nat)
    ensures n == |KeyOps(keys, keys.Keys)|
  {
    n := 0;
    var todo := keys.Keys;
    while todo != {}
      invariant todo <= keys.Keys && n == |KeyOps(keys, keys.Keys - todo)|
    {
      var k :| k in todo;
      OneMoreKey(keys, keys.Keys - todo, k);
      assert keys.Keys - todo + {k} == keys.Keys - (todo - {k});
      n := n + |keys[k]|;
      todo := todo - {k};
    }
    assert keys.Keys - todo == keys.Keys;
  }

  /** `grant_count` sums the sizes of all operation sets; that is the number of triples. */
  method GrantCount(p: Policy) returns (n: nat)
    ensures n == |Triples(p, p.Keys)|
  {
    n := 0;
    var todo := p.Keys;
    while todo != {}
      invariant todo <= p.Keys && n == |Triples(p, p.Keys - todo)|
    {
      var i :| i in todo;
      var m := CountKeyOps(p[i]);
      OneMoreIdentity(p, p.Keys - todo, i);
      assert p.Keys - todo + {i} == p.Keys - (todo - {i});
      n := n + m;
      todo := todo - {i};
    }
    assert p.Keys - todo == p.Keys;
  }

  /** A triple is counted exactly when some entry grants it. */
  lemma CountedExactly(ws: seq<Workload>, identity: string, key: Label, op: Operation)
    ensures (identity, (key, op)) in Triples(Compiled(ws), Compiled(ws).Keys) <==> Granted(ws, identity, key, op)
  {
    CompilationIsExact(ws, identity, key, op);
    var p := Compiled(ws);
    if identity in p {
      assert (key, op) in KeyOps(p[identity], p[identity].Keys) <==> IsAllowed(p, identity, key, op);
    }
  }
}
