/** The chained hash table: buckets of linked elements, changed in place, refine a finite map. */
module ChainedHash {

  class Elem<K, V> {
    const key: K
    var val: V
    var next: Elem?<K, V>

    constructor (key: K, val: V, next: Elem?<K, V>)
      ensures this.key == key && this.val == val && this.next == next
    {
      this.key, this.val, this.next := key, val, next;
    }
  }

  /** How keys compare and hash: keys that compare equal belong to one class, and the hash function, being
      compatible with equality, depends on the class alone. */
  datatype Keys<!K(!new), !C(!new, ==)> = Keys(cls: K -> C, index: C -> nat) {
    ghost predicate Compatible(m: nat) {
      forall c :: index(c) < m
    }

    function Bucket(k: K): nat {
      index(cls(k))
    }
  }

  // ----- which elements the table owns: nothing here changes when values or links do -----

  /** Element e is the one for its class, and belongs in bucket b. */
  ghost predicate Stands<K(!new), C(!new), V>(ks: Keys<K, C>, nodes: map<C, Elem<K, V>>, b: nat, e: Elem<K, V>) {
    ks.Bucket(e.key) == b && ks.cls(e.key) in nodes && nodes[ks.cls(e.key)] == e
  }

  ghost predicate Distinct<K, V>(chain: seq<Elem<K, V>>) {
    forall i, j :: 0 <= i < j < |chain| ==> chain[i] != chain[j]
  }

  ghost predicate Chain<K(!new), C(!new), V>(ks: Keys<K, C>, nodes: map<C, Elem<K, V>>, b: nat, chain: seq<Elem<K, V>>) {
    Distinct(chain) && forall e {:trigger Stands(ks, nodes, b, e)} :: e in chain ==> Stands(ks, nodes, b, e)
  }

  /** The class c has its element in the chain of its bucket. */
  ghost predicate Found<K(!new), C(!new), V>(ks: Keys<K, C>, nodes: map<C, Elem<K, V>>, chains: seq<seq<Elem<K, V>>>, c: C)
    requires c in nodes
  {
    var e := nodes[c];
    ks.cls(e.key) == c && ks.Bucket(e.key) < |chains| && e in chains[ks.Bucket(e.key)]
  }

  ghost predicate Owned<K(!new), C(!new), V>(ks: Keys<K, C>, nodes: map<C, Elem<K, V>>, chains: seq<seq<Elem<K, V>>>) {
    && (forall b {:trigger Chain(ks, nodes, b, chains[b])} :: 0 <= b < |chains| ==> Chain(ks, nodes, b, chains[b]))
    && (forall c {:trigger Found(ks, nodes, chains, c)} :: c in nodes ==> Found(ks, nodes, chains, c))
  }

  lemma InsertOwned<K(!new), C(!new), V>(ks: Keys<K, C>, nodes: map<C, Elem<K, V>>, chains: seq<seq<Elem<K, V>>>,
                                        p: Elem<K, V>)
    requires ks.Compatible(|chains|) && Owned(ks, nodes, chains)
    requires ks.cls(p.key) !in nodes
    ensures var b := ks.Bucket(p.key);
            Owned(ks, nodes[ks.cls(p.key) := p], chains[b := [p] + chains[b]])
  {
    var b := ks.Bucket(p.key);
    var nodes', chains' := nodes[ks.cls(p.key) := p], chains[b := [p] + chains[b]];
    forall b1 | 0 <= b1 < |chains|
      ensures Chain(ks, nodes', b1, chains'[b1])
    {
      assert Chain(ks, nodes, b1, chains[b1]);
      assert p !in chains[b1] by {
        assert p in chains[b1] ==> Stands(ks, nodes, b1, p);
      }
      forall e | e in chains'[b1]
        ensures Stands(ks, nodes', b1, e)
      {
        assert e == p || Stands(ks, nodes, b1, e);
      }
    }
    forall c | c in nodes'
      ensures Found(ks, nodes', chains', c)
    {
      assert c in nodes ==> Found(ks, nodes, chains, c);
    }
  }

  /** A chain without its element at `at`. */
  function Without<T>(chain: seq<T>, at: nat): seq<T>
    requires at < |chain|
  {
    chain[..at] + chain[at + 1..]
  }

  lemma WithoutElements<K, V>(chain: seq<Elem<K, V>>, at: nat)
    requires at < |chain| && Distinct(chain)
    ensures Distinct(Without(chain, at))
    ensures forall e :: e in Without(chain, at) <==> e in chain && e != chain[at]
  {
  }

  lemma UnlinkOwned<K(!new), C(!new), V>(ks: Keys<K, C>, nodes: map<C, Elem<K, V>>, chains: seq<seq<Elem<K, V>>>,
                                        b: nat, at: nat)
    requires ks.Compatible(|chains|) && Owned(ks, nodes, chains)
    requires b < |chains| && at < |chains[b]|
    ensures Owned(ks, nodes - {ks.cls(chains[b][at].key)}, chains[b := Without(chains[b], at)])
  {
    var p := chains[b][at];
    var c0 := ks.cls(p.key);
    var nodes', chains' := nodes - {c0}, chains[b := Without(chains[b], at)];
    assert Stands(ks, nodes, b, p) by {
      assert Chain(ks, nodes, b, chains[b]);
    }
    assert Distinct(chains[b]) by {
      assert Chain(ks, nodes, b, chains[b]);
    }
    WithoutElements(chains[b], at);
    forall b1 | 0 <= b1 < |chains|
      ensures Chain(ks, nodes', b1, chains'[b1])
    {
      assert Chain(ks, nodes, b1, chains[b1]);
      forall e | e in chains'[b1]
        ensures Stands(ks, nodes', b1, e)
      {
        assert Stands(ks, nodes, b1, e);
      }
    }
    forall c | c in nodes'
      ensures Found(ks, nodes', chains', c)
    {
      assert Found(ks, nodes, chains, c);
    }
  }

  ghost function Vals<C, V, K>(nodes: map<C, Elem<K, V>>): (m: map<C, V>)
    reads nodes.Values`val
    ensures m.Keys == nodes.Keys
  {
    map c | c in nodes :: nodes[c].val
  }

  lemma ValsAdd<C, V, K>(nodes: map<C, Elem<K, V>>, c: C, p: Elem<K, V>)
    requires c !in nodes
    ensures Vals(nodes[c := p]) == Vals(nodes)[c := p.val]
  {
  }

  lemma ValsRemove<C, V, K>(nodes: map<C, Elem<K, V>>, c: C)
    ensures Vals(nodes - {c}) == Vals(nodes) - {c}
  {
  }

  method SetVal<C, V, K>(p: Elem<K, V>, val: V, ghost c: C, ghost nodes: map<C, Elem<K, V>>)
    requires c in nodes && nodes[c] == p
    requires forall d :: d in nodes && d != c ==> nodes[d] != p
    modifies p`val
    ensures Vals(nodes) == old(Vals(nodes))[c := val]
  {
    p.val := val;
  }

  /** nil is the NULL that stands for no value. */
  class HashTable<K(!new), C(!new, ==), V> {
    const ks: Keys<K, C>
    const nil: V
    const hash: array<Elem?<K, V>>
    var length: int
    ghost var chains: seq<seq<Elem<K, V>>>
    ghost var nodes: map<C, Elem<K, V>>
    ghost var Repr: set<object>

    /** The elements of `chain` hang together from head to null. */
    ghost predicate Linked(head: Elem?<K, V>, chain: seq<Elem<K, V>>)
      reads chain`next
    {
      && (head == null <==> |chain| == 0)
      && (|chain| > 0 ==> head == chain[0] && chain[|chain| - 1].next == null)
      && (forall i :: 0 <= i < |chain| - 1 ==> chain[i].next == chain[i + 1])
    }

    ghost predicate AllLinked()
      reads this, Repr, hash
    {
      && |chains| == hash.Length
      && (forall b :: 0 <= b < |chains| ==> (forall e :: e in chains[b] ==> e in Repr) && Linked(hash[b], chains[b]))
    }

    ghost predicate Valid()
      reads this, Repr
      ensures Valid() ==> this in Repr
    {
      && this in Repr && hash in Repr
      && ks.Compatible(hash.Length)
      && AllLinked()
      && Owned(ks, nodes, chains)
      && length == |nodes|
    }

    /** The map that the table stores. */
    ghost function Model(): (m: map<C, V>)
      reads this`nodes, nodes.Values`val
      ensures m.Keys == nodes.Keys
    {
      Vals(nodes)
    }

    constructor (m: nat, ks: Keys<K, C>, nil: V)
      requires ks.Compatible(m)
      ensures Valid() && fresh(Repr) && Model() == map[]
      ensures this.ks == ks && this.nil == nil
    {
      this.ks, this.nil := ks, nil;
      var hash := new Elem?<K, V>[m](_ => null);
      this.hash := hash;
      length := 0;
      chains := seq(m, i => []);
      nodes := map[];
      Repr := {this, hash};
    }

    /** The element for the key, if any, and the one before it in its chain. */
    method Lookup(key: K) returns (p: Elem?<K, V>, prev: Elem?<K, V>, ghost at: nat)
      requires Valid()
      ensures p == null <==> ks.cls(key) !in nodes
      ensures p != null ==> && p == nodes[ks.cls(key)] && ks.cls(p.key) == ks.cls(key) && p in Repr
                            && at < |chains[ks.Bucket(key)]| && chains[ks.Bucket(key)][at] == p
                            && prev == if at == 0 then null else chains[ks.Bucket(key)][at - 1]
    {
      ghost var chain := chains[ks.Bucket(key)];
      assert Chain(ks, nodes, ks.Bucket(key), chain);
      prev, p, at := null, hash[ks.Bucket(key)], 0;
      while p != null
        invariant at <= |chain|
        invariant p == if at < |chain| then chain[at] else null
        invariant prev == if at == 0 then null else chain[at - 1]
        invariant forall i :: 0 <= i < at ==> ks.cls(chain[i].key) != ks.cls(key)
        decreases |chain| - at
      {
        assert p in chain && Stands(ks, nodes, ks.Bucket(key), p);
        if ks.cls(p.key) == ks.cls(key) {
          return;
        }
        prev := p;
        p := p.next;
        at := at + 1;
      }
      prev := null;
      assert ks.cls(key) in nodes ==> Found(ks, nodes, chains, ks.cls(key));
    }

    method Get(key: K) returns (v: V)
      requires Valid()
      ensures v == if ks.cls(key) in Model() then Model()[ks.cls(key)] else nil
    {
      var p, _, _ := Lookup(key);
      v := if p != null then p.val else nil;
    }

    /** What the heap operations below rely on and keep. */
    ghost predicate Sound()
      reads this, Repr, hash
    {
      this in Repr && hash in Repr && AllLinked() && length == |nodes|
    }

    /** Puts p in front of its chain. */
    method LinkFirst(b: nat, p: Elem<K, V>)
      requires AllLinked() && p in Repr && b < |chains| && p.next == hash[b]
      modifies hash, this`chains
      ensures AllLinked() && chains == old(chains)[b := [p] + old(chains)[b]]
    {
      ghost var chain := chains[b];
      assert Linked(hash[b], chain);
      hash[b] := p;
      chains := chains[b := [p] + chain];
      assert Linked(p, chain) || Linked(p.next, chain);
      assert Linked(hash[b], chains[b]);
      forall b1 | 0 <= b1 < |chains| && b1 != b
        ensures Linked(hash[b1], chains[b1])
      {
        assert old(Linked(hash[b1], chains[b1]));
      }
    }

    method NewFirst(key: K, val: V) returns (p: Elem<K, V>)
      requires this in Repr && hash in Repr && AllLinked() && ks.Bucket(key) < |chains|
      modifies hash, this`chains, this`Repr
      ensures AllLinked() && fresh(p) && p.key == key && p.val == val && Repr == old(Repr) + {p}
      ensures chains == old(chains)[ks.Bucket(key) := [p] + old(chains)[ks.Bucket(key)]]
    {
      p := new Elem(key, val, hash[ks.Bucket(key)]);
      Repr := Repr + {p};
      LinkFirst(ks.Bucket(key), p);
    }

    method CountIn(ghost c: C, p: Elem<K, V>)
      requires Sound() && c !in nodes
      modifies this`length, this`nodes
      ensures Sound() && nodes == old(nodes)[c := p] && Vals(nodes) == old(Vals(nodes))[c := p.val]
    {
      length := length + 1;
      ValsAdd(nodes, c, p);
      nodes := nodes[c := p];
    }

    method CountOut(ghost c: C)
      requires Sound() && c in nodes
      modifies this`length, this`nodes
      ensures Sound() && nodes == old(nodes) - {c} && Vals(nodes) == old(Vals(nodes)) - {c}
    {
      length := length - 1;
      ValsRemove(nodes, c);
      nodes := nodes - {c};
    }

    method AddElem(key: K, val: V) returns (p: Elem<K, V>)
      requires Sound() && ks.cls(key) !in nodes && ks.Bucket(key) < |chains|
      modifies this, hash
      ensures Sound() && fresh(p) && p.key == key && Repr == old(Repr) + {p}
      ensures chains == old(chains)[ks.Bucket(key) := [p] + old(chains)[ks.Bucket(key)]]
      ensures nodes == old(nodes)[ks.cls(key) := p]
      ensures Vals(nodes) == old(Vals(nodes))[ks.cls(key) := val]
    {
      p := NewFirst(key, val);
      CountIn(ks.cls(key), p);
    }

    method Insert(key: K, val: V)
      requires Valid() && ks.cls(key) !in nodes
      modifies this, hash
      ensures Valid() && fresh(Repr - old(Repr))
      ensures Model() == old(Model())[ks.cls(key) := val]
    {
      var p := AddElem(key, val);
      InsertOwned(ks, old(nodes), old(chains), p);
    }

    method Update(p: Elem<K, V>, val: V, ghost c: C)
      requires Valid() && c in nodes && p == nodes[c]
      modifies p`val
      ensures Valid()
      ensures Model() == old(Model())[c := val]
    {
      NodesDiffer(c);
      SetVal(p, val, c, nodes);
    }

    method Put(key: K, val: V) returns (prev: V)
      requires Valid()
      modifies Repr
      ensures Valid() && fresh(Repr - old(Repr))
      ensures Model() == old(Model())[ks.cls(key) := val]
      ensures prev == if ks.cls(key) in old(Model()) then old(Model())[ks.cls(key)] else nil
    {
      var p, _, _ := Lookup(key);
      if p == null {
        Insert(key, val);
        prev := nil;
      } else {
        prev := p.val;
        Update(p, val, ks.cls(key));
      }
    }

    ghost function Nexts(chain: seq<Elem<K, V>>): (n: seq<Elem?<K, V>>)
      reads chain
    {
      seq(|chain|, i requires 0 <= i < |chain| reads chain => chain[i].next)
    }

    /** Where the links of a chain led: each to the one after it, the last to null. */
    ghost predicate Follows(nexts: seq<Elem?<K, V>>, chain: seq<Elem<K, V>>) {
      && |nexts| == |chain|
      && (forall i :: 0 <= i < |chain| ==> nexts[i] == if i == |chain| - 1 then null else chain[i + 1])
    }

    lemma LinkedFollows(head: Elem?<K, V>, chain: seq<Elem<K, V>>)
      requires Linked(head, chain)
      ensures Follows(Nexts(chain), chain) && head == if chain == [] then null else chain[0]
    {
    }

    /** Past its predecessor the chain goes on with the successor of the element taken out. */
    lemma Relinked(chain: seq<Elem<K, V>>, nexts: seq<Elem?<K, V>>, at: nat, head: Elem?<K, V>)
      requires Follows(nexts, chain) && at < |chain| && Distinct(chain)
      requires forall i :: 0 <= i < |chain| && i != at - 1 ==> chain[i].next == nexts[i]
      requires if at == 0 then head == nexts[0] else head == chain[0] && chain[at - 1].next == nexts[at]
      ensures Linked(head, Without(chain, at))
    {
      var rest := Without(chain, at);
      forall i | 0 <= i < |rest|
        ensures rest[i].next == if i == |rest| - 1 then null else rest[i + 1]
      {
        assert rest[i] == if i < at then chain[i] else chain[i + 1];
      }
    }

    method UnlinkFirst(b: nat, p: Elem<K, V>)
      requires AllLinked() && b < |chains| && |chains[b]| > 0 && chains[b][0] == p && Distinct(chains[b])
      modifies hash, this`chains
      ensures AllLinked() && chains == old(chains)[b := Without(old(chains)[b], 0)]
    {
      ghost var chain, nexts := chains[b], Nexts(chains[b]);
      LinkedFollows(hash[b], chain);
      hash[b] := p.next;
      chains := chains[b := Without(chain, 0)];
      Relinked(chain, nexts, 0, hash[b]);
      forall b1 | 0 <= b1 < |chains| && b1 != b
        ensures Linked(hash[b1], chains[b1])
      {
        assert old(Linked(hash[b1], chains[b1]));
      }
    }

    method UnlinkAfter(b: nat, p: Elem<K, V>, prev: Elem<K, V>, ghost at: nat)
      requires AllLinked() && b < |chains| && Distinct(chains[b])
      requires 0 < at < |chains[b]| && chains[b][at] == p && prev == chains[b][at - 1]
      requires forall b1 :: 0 <= b1 < |chains| && b1 != b ==> prev !in chains[b1]
      modifies prev`next, this`chains
      ensures AllLinked() && chains == old(chains)[b := Without(old(chains)[b], at)]
    {
      ghost var chain, nexts := chains[b], Nexts(chains[b]);
      LinkedFollows(hash[b], chain);
      prev.next := p.next;
      chains := chains[b := Without(chain, at)];
      Relinked(chain, nexts, at, hash[b]);
      forall b1 | 0 <= b1 < |chains| && b1 != b
        ensures Linked(hash[b1], chains[b1])
      {
        assert old(Linked(hash[b1], chains[b1]));
      }
    }

    /** Takes the element at `at` out of its chain; no value changes. */
    method Unlink(b: nat, p: Elem<K, V>, prev: Elem?<K, V>, ghost at: nat)
      requires AllLinked() && this in Repr && hash in Repr && (prev != null ==> prev in Repr)
      requires b < |chains| && at < |chains[b]| && chains[b][at] == p && Distinct(chains[b])
      requires prev == if at == 0 then null else chains[b][at - 1]
      requires forall b1 :: 0 <= b1 < |chains| && b1 != b ==> prev !in chains[b1]
      modifies Repr
      ensures AllLinked() && Repr == old(Repr) && nodes == old(nodes) && length == old(length)
      ensures chains == old(chains)[b := Without(old(chains)[b], at)]
      ensures Vals(nodes) == old(Vals(nodes))
    {
      if prev == null {
        UnlinkFirst(b, p);
      } else {
        UnlinkAfter(b, p, prev, at);
      }
    }

    method DropElem(b: nat, p: Elem<K, V>, prev: Elem?<K, V>, ghost at: nat, ghost c: C)
      requires Sound() && c in nodes && (prev != null ==> prev in Repr)
      requires b < |chains| && at < |chains[b]| && chains[b][at] == p && Distinct(chains[b])
      requires prev == if at == 0 then null else chains[b][at - 1]
      requires forall b1 :: 0 <= b1 < |chains| && b1 != b ==> prev !in chains[b1]
      modifies Repr
      ensures Sound() && Repr == old(Repr)
      ensures chains == old(chains)[b := Without(old(chains)[b], at)] && nodes == old(nodes) - {c}
      ensures Vals(nodes) == old(Vals(nodes)) - {c}
    {
      Unlink(b, p, prev, at);
      CountOut(c);
    }

    method Remove(key: K, p: Elem<K, V>, prev: Elem?<K, V>, ghost at: nat)
      requires Valid() && ks.cls(key) in nodes && p == nodes[ks.cls(key)] && ks.cls(p.key) == ks.cls(key)
      requires at < |chains[ks.Bucket(key)]| && chains[ks.Bucket(key)][at] == p
      requires prev == if at == 0 then null else chains[ks.Bucket(key)][at - 1]
      modifies Repr
      ensures Valid() && Repr == old(Repr)
      ensures Model() == old(Model()) - {ks.cls(key)}
    {
      UnlinkOwned(ks, nodes, chains, ks.Bucket(key), at);
      PrevApart(ks.Bucket(key), prev, at);
      DropElem(ks.Bucket(key), p, prev, at, ks.cls(key));
    }

    method Del(key: K) returns (val: V)
      requires Valid()
      modifies Repr
      ensures Valid() && Repr == old(Repr)
      ensures Model() == old(Model()) - {ks.cls(key)}
      ensures val == if ks.cls(key) in old(Model()) then old(Model())[ks.cls(key)] else nil
    {
      var p, prev, at := Lookup(key);
      val := nil;
      if p != null {
        val := p.val;
        Remove(key, p, prev, at);
      }
    }

    lemma NodesDiffer(c: C)
      requires Valid() && c in nodes
      ensures forall d :: d in nodes && d != c ==> nodes[d] != nodes[c]
    {
      assert Found(ks, nodes, chains, c);
      forall d | d in nodes && d != c
        ensures nodes[d] != nodes[c]
      {
        assert Found(ks, nodes, chains, d);
      }
    }

    /** length is the size of the map. */
    lemma LengthIsSize()
      requires Valid()
      ensures length == |Model()|
    {
      assert |Model().Keys| == |nodes.Keys|;
    }

    lemma PrevIsElsewhere(b: nat, prev: Elem<K, V>, b1: nat)
      requires Valid() && b < |chains| && prev in chains[b] && b1 < |chains| && b1 != b
      ensures prev !in chains[b1]
    {
      assert Chain(ks, nodes, b, chains[b]) && Chain(ks, nodes, b1, chains[b1]);
      assert Stands(ks, nodes, b, prev);
      assert prev in chains[b1] ==> Stands(ks, nodes, b1, prev);
    }

    lemma PrevApart(b: nat, prev: Elem?<K, V>, at: nat)
      requires Valid() && b < |chains| && at < |chains[b]|
      requires prev == if at == 0 then null else chains[b][at - 1]
      ensures Distinct(chains[b]) && (prev != null ==> prev in Repr)
      ensures forall b1 :: 0 <= b1 < |chains| && b1 != b ==> prev !in chains[b1]
    {
      assert Chain(ks, nodes, b, chains[b]);
      if prev != null {
        forall b1 | 0 <= b1 < |chains| && b1 != b
          ensures prev !in chains[b1]
        {
          PrevIsElsewhere(b, prev, b1);
        }
      }
    }
  }
}

/** Whole runs of the table, and the hash function it uses by default. */
module ChainedHashRuns {
  import opened Sums
  import opened ChainedHash

  datatype Op<K, V> = Put(key: K, val: V) | Get(key: K) | Del(key: K)

  /** What a finite map from classes of keys becomes, and what it answers. */
  function Next<K(!new), C(!new, ==), V>(ks: Keys<K, C>, nil: V, m: map<C, V>, op: Op<K, V>): (map<C, V>, V) {
    var c := ks.cls(op.key);
    var was := if c in m then m[c] else nil;
    match op
    case Put(_, val) => (m[c := val], was)
    case Get(_) => (m, was)
    case Del(_) => (m - {c}, was)
  }

  /** The map after all operations, and the answers in order. */
  function After<K(!new), C(!new, ==), V>(ks: Keys<K, C>, nil: V, m: map<C, V>, ops: seq<Op<K, V>>): (map<C, V>, seq<V>) {
    if |ops| == 0 then (m, [])
    else
      var (m', answers) := After(ks, nil, m, ops[..|ops| - 1]);
      var (m'', answer) := Next(ks, nil, m', ops[|ops| - 1]);
      (m'', answers + [answer])
  }

  method Step<K(!new), C(!new, ==), V>(t: HashTable<K, C, V>, op: Op<K, V>) returns (answer: V)
    requires t.Valid()
    modifies t.Repr
    ensures t.Valid() && fresh(t.Repr - old(t.Repr))
    ensures (t.Model(), answer) == Next(t.ks, t.nil, old(t.Model()), op)
  {
    match op
    case Put(key, val) =>
      answer := t.Put(key, val);
    case Get(key) =>
      answer := t.Get(key);
    case Del(key) =>
      answer := t.Del(key);
  }

  /** Any sequence of operations answers as the map does, and leaves the map's contents. */
  method Run<K(!new), C(!new, ==), V>(t: HashTable<K, C, V>, ops: seq<Op<K, V>>) returns (answers: seq<V>)
    requires t.Valid()
    modifies t.Repr
    ensures t.Valid() && fresh(t.Repr - old(t.Repr))
    ensures (t.Model(), answers) == After(t.ks, t.nil, old(t.Model()), ops)
    decreases |ops|
  {
    if |ops| == 0 {
      return [];
    }
    answers := Run(t, ops[..|ops| - 1]);
    var answer := Step(t, ops[|ops| - 1]);
    answers := answers + [answer];
  }

  // ----- the default hash function -----

  const TWO32 := 0x1_0000_0000

  function BucketOf(key: seq<int>, m: nat): int
    requires m >= 1
  {
    31 * Sum(key) % TWO32 % m
  }

  /** The loop over the bytes of the key; the bucket is val % m. */
  method AntHash(key: seq<int>, m: nat) returns (bucket: nat)
    requires m >= 1 && forall i :: 0 <= i < |key| ==> 0 <= key[i] < 256
    ensures bucket == BucketOf(key, m)
  {
    var val := 0;
    for i := 0 to |key|
      invariant val == 31 * Sum(key[..i]) % TWO32
    {
      assert key[..i + 1][..i] == key[..i];
      val := (key[i] * 31 + val) % TWO32;
    }
    assert key[..|key|] == key;
    bucket := val % m;
  }

  lemma {:induction false} SumConcat(a: seq<int>, b: seq<int>)
    ensures Sum(a + b) == Sum(a) + Sum(b)
  {
    if |b| == 0 {
      assert a + b == a;
    } else {
      assert (a + b)[..|a + b| - 1] == a + b[..|b| - 1];
      SumConcat(a, b[..|b| - 1]);
    }
  }

  lemma SumInsert(x: seq<int>, v: int, y: seq<int>)
    ensures Sum((x + [v]) + y) == Sum(x + y) + v
    ensures multiset((x + [v]) + y) == multiset(x + y) + multiset{v}
  {
    assert (x + [v])[..|x|] == x;
    SumConcat(x + [v], y);
    SumConcat(x, y);
  }

  lemma TakeOut(a: seq<int>, v: int, b: seq<int>) returns (front: seq<int>, back: seq<int>)
    requires multiset(a + [v]) == multiset(b)
    ensures b == (front + [v]) + back && multiset(a) == multiset(front + back)
  {
    assert v in multiset(b);
    var j: nat :| j < |b| && b[j] == v;
    front, back := b[..j], b[j + 1..];
    assert b == (front + [v]) + back;
    SumInsert(front, v, back);
    assert multiset(a) == multiset(a + [v]) - multiset{v};
  }

  lemma {:induction false} SumOfRearranged(a: seq<int>, b: seq<int>)
    requires multiset(a) == multiset(b)
    ensures Sum(a) == Sum(b)
    decreases |a|
  {
    if |a| == 0 {
      assert |b| == |multiset(b)|;
    } else {
      var n := |a| - 1;
      assert a[..n] + [a[n]] == a;
      var front, back := TakeOut(a[..n], a[n], b);
      SumInsert(front, a[n], back);
      SumOfRearranged(a[..n], front + back);
    }
  }

  /** The default hash function does not see the order of the bytes: keys that are rearrangements of each
      other share a bucket, however many buckets there are. */
  lemma RearrangedKeysCollide(a: seq<int>, b: seq<int>, m: nat)
    requires multiset(a) == multiset(b) && m >= 1
    ensures BucketOf(a, m) == BucketOf(b, m)
  {
    SumOfRearranged(a, b);
  }
}
