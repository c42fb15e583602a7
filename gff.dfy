/** In-memory stand-in for the gffutils feature database that
    checkGeneChildren.py and statsLiftoffGFF.py query: the features in file
    order, and for each feature id the ordered descendants that
    db.children(feature) yields. */
module Gff {
  import opened Text

  /** One GFF3 feature: column 1 is seqid, 3 featuretype, 4-5 start/end,
      7 strand, 9 the attributes (key -> ordered values). */
  datatype Feature = Feature(
    id: string,
    featuretype: string,
    seqid: string,
    start: int,
    end: int,
    strand: string,
    attributes: map<string, seq<string>>)

  datatype Store = Store(features: seq<Feature>, children: map<string, seq<Feature>>)

  /** gffutils keeps feature ids unique (merge_strategy create_unique). */
  ghost predicate UniqueIds(db: Store)
  {
    forall f, g :: f in db.features && g in db.features && f.id == g.id ==> f == g
  }

  /** db.children(f): the descendants of f in store order, none when the
      store records no child of f. */
  function Children(db: Store, f: Feature): seq<Feature>
  {
    if f.id in db.children then db.children[f.id] else []
  }

  /** The features of fs whose type is t, in order. */
  function OfType(fs: seq<Feature>, t: string): (r: seq<Feature>)
    ensures forall f :: f in r <==> f in fs && f.featuretype == t
    ensures |r| <= |fs|
  {
    if |fs| == 0 then []
    else
      var rest := OfType(fs[1..], t);
      assert forall f :: f in fs <==> f == fs[0] || f in fs[1..];
      if fs[0].featuretype == t then [fs[0]] + rest else rest
  }

  /** The features of fs located on sequence s, in order. */
  function OnSequence(fs: seq<Feature>, s: string): (r: seq<Feature>)
    ensures forall f :: f in r <==> f in fs && f.seqid == s
    ensures |r| <= |fs|
  {
    if |fs| == 0 then []
    else
      var rest := OnSequence(fs[1..], s);
      assert forall f :: f in fs <==> f == fs[0] || f in fs[1..];
      if fs[0].seqid == s then [fs[0]] + rest else rest
  }

  /** Filtering by type distributes over concatenation: the filter keeps
      the order of the features and drops none of type t, so the number of
      features of type t in a + b is the sum of those in a and in b. */
  lemma {:induction false} OfTypeAppend(a: seq<Feature>, b: seq<Feature>, t: string)
    ensures OfType(a + b, t) == OfType(a, t) + OfType(b, t)
    ensures |OfType(a + b, t)| == |OfType(a, t)| + |OfType(b, t)|
  {
    if |a| > 0 {
      assert (a + b)[1..] == a[1..] + b;
      OfTypeAppend(a[1..], b, t);
    } else {
      assert a + b == b;
    }
  }

  /** A single feature is kept exactly when it has type t. */
  lemma {:induction false} OfTypeSingle(f: Feature, t: string)
    ensures OfType([f], t) == if f.featuretype == t then [f] else []
  {
    assert [f][1..] == [];
  }

  /** The same two facts for the filter by sequence. */
  lemma {:induction false} OnSequenceAppend(a: seq<Feature>, b: seq<Feature>, s: string)
    ensures OnSequence(a + b, s) == OnSequence(a, s) + OnSequence(b, s)
    ensures |OnSequence(a + b, s)| == |OnSequence(a, s)| + |OnSequence(b, s)|
  {
    if |a| > 0 {
      assert (a + b)[1..] == a[1..] + b;
      OnSequenceAppend(a[1..], b, s);
    } else {
      assert a + b == b;
    }
  }

  lemma {:induction false} OnSequenceSingle(f: Feature, s: string)
    ensures OnSequence([f], s) == if f.seqid == s then [f] else []
  {
    assert [f][1..] == [];
  }

  /** The features of type t, in store order. */
  function FeaturesOfType(db: Store, t: string): seq<Feature>
  {
    OfType(db.features, t)
  }

  /** db.region(seqid=s, featuretype=t): no coordinates are given, so every
      feature of type t on sequence s. */
  function Region(db: Store, s: string, t: string): seq<Feature>
  {
    OfType(OnSequence(db.features, s), t)
  }

  function TypesOf(fs: seq<Feature>): (r: seq<string>)
    ensures |r| == |fs|
  {
    seq(|fs|, i requires 0 <= i < |fs| => fs[i].featuretype)
  }

  function SeqidsOf(fs: seq<Feature>): (r: seq<string>)
    ensures |r| == |fs|
  {
    seq(|fs|, i requires 0 <= i < |fs| => fs[i].seqid)
  }

  /** db.featuretypes(): each type present once, in order of first use. */
  function FeatureTypes(db: Store): seq<string>
  {
    Dedup(TypesOf(db.features))
  }

  /** The distinct sequence ids of the store, in order of first use. */
  function Seqids(db: Store): seq<string>
  {
    Dedup(SeqidsOf(db.features))
  }
}
