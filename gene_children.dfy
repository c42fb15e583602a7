/** checkGeneChildren.py: classifies every gene by the signature of its
    descendants (their distinct feature types in first-seen order, joined
    by ':') and writes the genes of chosen signatures to a table. */
module GeneChildren {
  import opened Outcomes
  import opened Text
  import opened Gff

  const GeneType := "gene"
  const SignatureSeparator := ":"
  const Header := "child_feature\tGeneID"

  /** The features of type "gene", in store order. */
  function Genes(db: Store): seq<Feature>
  {
    FeaturesOfType(db, GeneType)
  }

  /** The key the loop computes for gene g: the keys of fcount joined with
      ":", where
      fcount got one update per child, in child order. */
  function Signature(db: Store, g: Feature): string
  {
    Join(Dedup(TypesOf(Children(db, g))), SignatureSeparator)
  }

  /** The loop over db.children(g) that fills fcount (its values are all 0
      and never read, so only the key order is kept), then the join. */
  method ChildSignature(db: Store, g: Feature) returns (key: string)
    ensures key == Signature(db, g)
  {
    var children := Children(db, g);
    var keys: seq<string> := [];
    for i := 0 to |children|
      invariant keys == Dedup(TypesOf(children[..i]))
    {
      assert TypesOf(children[..i + 1])[..i] == TypesOf(children[..i]);
      if children[i].featuretype !in keys {
        keys := keys + [children[i].featuretype];
      }
    }
    assert children[..|children|] == children;
    key := Join(keys, SignatureSeparator);
  }

  /** The signature lists each distinct child type exactly once, in the
      order in which the children first show it; a gene without children
      has the empty signature. */
  lemma {:induction false} SignatureParts(db: Store, g: Feature)
    ensures var types := TypesOf(Children(db, g));
      var parts := Dedup(types);
      Signature(db, g) == Join(parts, SignatureSeparator) &&
      NoDup(parts) &&
      (forall t :: t in parts <==> exists c :: c in Children(db, g) && c.featuretype == t) &&
      (forall i, j :: 0 <= i < j < |parts| ==> IndexOf(types, parts[i]) < IndexOf(types, parts[j])) &&
      (Children(db, g) == [] ==> Signature(db, g) == "")
  {
    var cs := Children(db, g);
    var types := TypesOf(cs);
    DedupFirstSeenOrder(types);
    forall t
      ensures t in types <==> exists c :: c in cs && c.featuretype == t
    {
      if t in types {
        var k :| 0 <= k < |types| && types[k] == t;
        assert cs[k] in cs;
      }
      if exists c :: c in cs && c.featuretype == t {
        var c :| c in cs && c.featuretype == t;
        var k :| 0 <= k < |cs| && cs[k] == c;
        assert types[k] == t;
      }
    }
  }

  /** A child whose type was already seen does not change the signature. */
  lemma {:induction false} RepeatedTypeKeepsSignature(cs: seq<Feature>, c: Feature)
    requires exists d :: d in cs && d.featuretype == c.featuretype
    ensures Join(Dedup(TypesOf(cs + [c])), SignatureSeparator) ==
            Join(Dedup(TypesOf(cs)), SignatureSeparator)
  {
    var d :| d in cs && d.featuretype == c.featuretype;
    var k :| 0 <= k < |cs| && cs[k] == d;
    assert TypesOf(cs)[k] == c.featuretype;
    assert TypesOf(cs + [c]) == TypesOf(cs) + [c.featuretype];
    DedupRepeats(TypesOf(cs), [c.featuretype]);
  }

  /** The gene ids in gene order. */
  function GeneIdList(db: Store): (r: seq<string>)
    ensures |r| == |Genes(db)|
  {
    seq(|Genes(db)|, i requires 0 <= i < |Genes(db)| => Genes(db)[i].id)
  }

  /** The signature of each gene, in gene order. */
  function SignatureList(db: Store): (r: seq<string>)
    ensures |r| == |Genes(db)|
  {
    seq(|Genes(db)|, i requires 0 <= i < |Genes(db)| => Signature(db, Genes(db)[i]))
  }

  /** id is the id of one of the first n genes, and that gene's signature
      is k (ids and keys list the genes' ids and signatures). */
  ghost predicate Labelled(ids: seq<string>, keys: seq<string>, n: int, k: string, id: string)
    requires n <= |ids| && n <= |keys|
  {
    exists j :: 0 <= j < n && ids[j] == id && keys[j] == k
  }

  /** The grouping after the first n genes: each of them sits in the group
      of its own signature, groups are never empty, and a group holds only
      ids of those genes with that signature. */
  ghost predicate GroupedUpTo(ids: seq<string>, keys: seq<string>, n: int, sets: map<string, set<string>>)
    requires 0 <= n <= |ids| && n <= |keys|
  {
    (forall i :: 0 <= i < n ==> keys[i] in sets && ids[i] in sets[keys[i]]) &&
    (forall k :: k in sets ==> sets[k] != {}) &&
    (forall k, id :: k in sets && id in sets[k] ==> Labelled(ids, keys, n, k, id))
  }

  /** What getGeneChildren promises of its result, over all genes. */
  ghost predicate Grouped(db: Store, sets: map<string, set<string>>)
  {
    GroupedUpTo(GeneIdList(db), SignatureList(db), |Genes(db)|, sets)
  }

  /** One iteration of the gene loop: the gene's id joins the group of its
      signature (a new group when the key is absent, or maps to a falsy
      empty set) and the grouping now covers one more gene. */
  lemma {:induction false} GroupStep(ids: seq<string>, keys: seq<string>, i: nat,
                  previous: map<string, set<string>>, sets: map<string, set<string>>)
    requires i < |ids| == |keys| && GroupedUpTo(ids, keys, i, previous)
    requires sets == if keys[i] in previous && previous[keys[i]] != {}
                     then previous[keys[i] := previous[keys[i]] + {ids[i]}]
                     else previous[keys[i] := {ids[i]}]
    ensures GroupedUpTo(ids, keys, i + 1, sets)
  {
    forall j | 0 <= j <= i
      ensures keys[j] in sets && ids[j] in sets[keys[j]]
    {
      if j < i {
        assert keys[j] in previous && ids[j] in previous[keys[j]];
      }
    }
    forall k, x | k in sets && x in sets[k]
      ensures Labelled(ids, keys, i + 1, k, x)
    {
      if k == keys[i] && x == ids[i] {
        assert ids[i] == x && keys[i] == k;
      } else {
        assert k in previous && x in previous[k];
        assert Labelled(ids, keys, i, k, x);
      }
    }
  }

  /** getGeneChildren */
  method GetGeneChildren(db: Store) returns (sets: map<string, set<string>>)
    ensures Grouped(db, sets)
  {
    var genes := Genes(db);
    ghost var ids, keys := GeneIdList(db), SignatureList(db);
    sets := map[];
    for i := 0 to |genes|
      invariant GroupedUpTo(ids, keys, i, sets)
    {
      var g := genes[i];
      var key := ChildSignature(db, g);
      assert key == keys[i] && g.id == ids[i];
      ghost var previous := sets;
      if key in sets && sets[key] != {} {
        sets := sets[key := sets[key] + {g.id}];
      } else {
        sets := sets[key := {g.id}];
      }
      GroupStep(ids, keys, i, previous, sets);
    }
  }

  function GeneIds(db: Store): set<string>
  {
    set g | g in Genes(db) :: g.id
  }

  /** The groups together hold exactly the gene ids. */
  lemma {:induction false} GroupsCoverGenes(db: Store, sets: map<string, set<string>>)
    requires Grouped(db, sets)
    ensures forall id :: (exists k :: k in sets && id in sets[k]) <==> id in GeneIds(db)
  {
    forall id | id in GeneIds(db)
      ensures exists k :: k in sets && id in sets[k]
    {
      GeneInItsGroup(db, sets, id);
    }
    forall id, k | k in sets && id in sets[k]
      ensures id in GeneIds(db)
    {
      GroupMemberIsGene(db, sets, k, id);
    }
  }

  lemma {:induction false} GeneInItsGroup(db: Store, sets: map<string, set<string>>, id: string)
    requires Grouped(db, sets) && id in GeneIds(db)
    ensures exists k :: k in sets && id in sets[k]
  {
    var genes, ids, keys := Genes(db), GeneIdList(db), SignatureList(db);
    var g :| g in genes && g.id == id;
    var i :| 0 <= i < |genes| && genes[i] == g;
    assert ids[i] == id;
    assert keys[i] in sets && ids[i] in sets[keys[i]];
  }

  lemma {:induction false} GroupMemberIsGene(db: Store, sets: map<string, set<string>>, k: string, id: string)
    requires Grouped(db, sets) && k in sets && id in sets[k]
    ensures id in GeneIds(db)
  {
    var genes, ids, keys := Genes(db), GeneIdList(db), SignatureList(db);
    assert Labelled(ids, keys, |genes|, k, id);
    var i :| 0 <= i < |genes| && ids[i] == id && keys[i] == k;
    assert genes[i] in genes && genes[i].id == id;
  }

  /** With unique feature ids no gene id lies in two groups. */
  lemma {:induction false} GroupsDisjoint(db: Store, sets: map<string, set<string>>)
    requires UniqueIds(db) && Grouped(db, sets)
    ensures forall k1, k2, id :: k1 in sets && k2 in sets && id in sets[k1] && id in sets[k2] ==> k1 == k2
  {
    forall k1, k2, id | k1 in sets && k2 in sets && id in sets[k1] && id in sets[k2]
      ensures k1 == k2
    {
      OneGroupPerGene(db, sets, k1, k2, id);
    }
  }

  lemma {:induction false} OneGroupPerGene(db: Store, sets: map<string, set<string>>, k1: string, k2: string, id: string)
    requires UniqueIds(db) && Grouped(db, sets)
    requires k1 in sets && k2 in sets && id in sets[k1] && id in sets[k2]
    ensures k1 == k2
  {
    var genes, ids, keys := Genes(db), GeneIdList(db), SignatureList(db);
    assert Labelled(ids, keys, |genes|, k1, id);
    assert Labelled(ids, keys, |genes|, k2, id);
    var i :| 0 <= i < |genes| && ids[i] == id && keys[i] == k1;
    var j :| 0 <= j < |genes| && ids[j] == id && keys[j] == k2;
    assert genes[i] in db.features && genes[j] in db.features;
    assert genes[i].id == genes[j].id;
  }

  // ---------------------------------------------------------------------
  // writeFeatureSets
  // ---------------------------------------------------------------------

  /** The rows written for one signature, with its ids in iteration order. */
  function Block(signature: string, ids: seq<string>): (r: seq<string>)
    ensures |r| == |ids|
  {
    seq(|ids|, i requires 0 <= i < |ids| => signature + "\t" + ids[i])
  }

  /** The data rows for the wanted signatures, each enumerated by ids[i]. */
  function Blocks(wanted: seq<string>, ids: seq<seq<string>>): seq<string>
    requires |wanted| == |ids|
  {
    if |wanted| == 0 then []
    else Blocks(wanted[..|wanted| - 1], ids[..|ids| - 1]) + Block(wanted[|wanted| - 1], ids[|ids| - 1])
  }

  /** ids lists the members of a set, each once, in some order. */
  ghost predicate Enumerates(ids: seq<string>, s: set<string>)
  {
    NoDup(ids) && (set x | x in ids) == s
  }

  /** The total size of the wanted groups, a signature wanted twice counted
      twice. */
  function SumSizes(sets: map<string, set<string>>, wanted: seq<string>): nat
    requires forall w :: w in wanted ==> w in sets
  {
    if |wanted| == 0 then 0
    else SumSizes(sets, wanted[..|wanted| - 1]) + |sets[wanted[|wanted| - 1]]|
  }

  /** One data row per member of each wanted group, counting a signature
      as often as the list names it. */
  lemma {:induction false} BlocksCount(sets: map<string, set<string>>, wanted: seq<string>, ids: seq<seq<string>>)
    requires |wanted| == |ids|
    requires forall i :: 0 <= i < |wanted| ==> wanted[i] in sets && Enumerates(ids[i], sets[wanted[i]])
    ensures |Blocks(wanted, ids)| == SumSizes(sets, wanted)
  {
    if |wanted| > 0 {
      var n := |wanted| - 1;
      BlocksCount(sets, wanted[..n], ids[..n]);
      DistinctCardinality(ids[n]);
    }
  }

  /** writeFeatureSets: the header, then for each wanted signature in list
      order one row per gene id of its group (set order is unspecified, so
      the ghost ids record the order used). A wanted signature with no
      group makes `for e in None` fail; the rows written so far remain. */
  method WriteFeatureSets(sets: map<string, set<string>>, wanted: seq<string>)
    returns (lines: seq<string>, failure: Option<string>, ghost ids: seq<seq<string>>)
    ensures |ids| <= |wanted|
    ensures forall i :: 0 <= i < |ids| ==> wanted[i] in sets && Enumerates(ids[i], sets[wanted[i]])
    ensures lines == [Header] + Blocks(wanted[..|ids|], ids)
    ensures failure.None? <==> |ids| == |wanted|
    ensures failure.Some? ==> wanted[|ids|] !in sets && failure.value == wanted[|ids|]
  {
    lines := [Header];
    ids := [];
    for i := 0 to |wanted|
      invariant |ids| == i
      invariant forall j :: 0 <= j < i ==> wanted[j] in sets && Enumerates(ids[j], sets[wanted[j]])
      invariant lines == [Header] + Blocks(wanted[..i], ids)
    {
      var signature := wanted[i];
      if signature !in sets {
        failure := Some(signature);
        return;
      }
      var remaining := sets[signature];
      ghost var order: seq<string> := [];
      ghost var before := lines;
      while remaining != {}
        invariant NoDup(order)
        invariant (set x | x in order) + remaining == sets[signature]
        invariant forall x :: x in order ==> x !in remaining
        invariant lines == before + Block(signature, order)
        decreases remaining
      {
        var e :| e in remaining;
        lines := lines + [signature + "\t" + e];
        order := order + [e];
        remaining := remaining - {e};
      }
      assert wanted[..i + 1][..i] == wanted[..i];
      assert (ids + [order])[..i] == ids;
      ids := ids + [order];
    }
    assert wanted[..|wanted|] == wanted;
    failure := None;
  }

  /** For a wanted list whose signatures all have groups, the table has one
      header and exactly SumSizes data rows. */
  lemma {:induction false} WrittenRowCount(sets: map<string, set<string>>, wanted: seq<string>,
                        lines: seq<string>, ids: seq<seq<string>>)
    requires |ids| == |wanted|
    requires forall i :: 0 <= i < |ids| ==> wanted[i] in sets && Enumerates(ids[i], sets[wanted[i]])
    requires lines == [Header] + Blocks(wanted[..|ids|], ids)
    ensures forall w :: w in wanted ==> w in sets
    ensures |lines| == 1 + SumSizes(sets, wanted)
  {
    assert wanted[..|ids|] == wanted;
    BlocksCount(sets, wanted, ids);
  }
}
