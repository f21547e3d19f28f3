/** Small stores on which the behaviour of the extractors is worked out in
    full. */
module Scenarios {
  import opened RdfGraph
  import opened Multivalue
  import opened Fields
  import opened SeqFacts
  import opened Layouts
  import opened Rows
  import opened Extractors

  lemma ObjectsSingle(t: Triple, s: Node, p: string)
    ensures Objects([t], s, p) == if t.subj == s && t.pred == p then [t.obj] else []
  {
    assert [t][..0] == [];
  }

  /** Objects in a store of two parts, the second a single triple. */
  lemma ObjectsSnoc(g: Graph, t: Triple, s: Node, p: string)
    ensures Objects(g + [t], s, p) == Objects(g, s, p) + if t.subj == s && t.pred == p then [t.obj] else []
  {
    ObjectsAppend(g, [t], s, p);
    ObjectsSingle(t, s, p);
  }

  // A subject with two format nodes, each with one carrier type.

  function CarrierStore(p: Node, f1: Node, f2: Node, a: string, b: string): (store: Graph)
  {
    [Triple(p, Dcterms + "format", f1), Triple(p, Dcterms + "format", f2),
     Triple(f1, Rcgs + "carrierType", Literal(a, None)),
     Triple(f2, Rcgs + "carrierType", Literal(b, None))]
  }

  lemma CarrierStoreFormats(p: Node, f1: Node, f2: Node, a: string, b: string)
    ensures Objects(CarrierStore(p, f1, f2, a, b), p, Dcterms + "format") == [f1, f2]
  {
    var g := CarrierStore(p, f1, f2, a, b);
    ObjectsSingle(g[0], p, Dcterms + "format");
    ObjectsSnoc(g[..1], g[1], p, Dcterms + "format");
    assert g[..2] == g[..1] + [g[1]];
    ObjectsSnoc(g[..2], g[2], p, Dcterms + "format");
    assert g[..3] == g[..2] + [g[2]];
    ObjectsSnoc(g[..3], g[3], p, Dcterms + "format");
    assert g == g[..3] + [g[3]];
  }

  lemma CarrierStoreTypes(p: Node, f1: Node, f2: Node, a: string, b: string, f: Node)
    requires f1 != f2 && (f == f1 || f == f2)
    ensures Objects(CarrierStore(p, f1, f2, a, b), f, Rcgs + "carrierType")
            == if f == f1 then [Literal(a, None)] else [Literal(b, None)]
  {
    var g := CarrierStore(p, f1, f2, a, b);
    ObjectsSingle(g[0], f, Rcgs + "carrierType");
    ObjectsSnoc(g[..1], g[1], f, Rcgs + "carrierType");
    assert g[..2] == g[..1] + [g[1]];
    ObjectsSnoc(g[..2], g[2], f, Rcgs + "carrierType");
    assert g[..3] == g[..2] + [g[2]];
    ObjectsSnoc(g[..3], g[3], f, Rcgs + "carrierType");
    assert g == g[..3] + [g[3]];
  }

  lemma CarrierStoreNested(p: Node, f1: Node, f2: Node, a: string, b: string)
    requires f1 != f2
    ensures NestedNodes(CarrierStore(p, f1, f2, a, b), [f1, f2], Hop(Rcgs + "carrierType"))
            == [Literal(a, None), Literal(b, None)]
  {
    var g := CarrierStore(p, f1, f2, a, b);
    CarrierStoreTypes(p, f1, f2, a, b, f1);
    CarrierStoreTypes(p, f1, f2, a, b, f2);
    assert [f1, f2][..1] == [f1] && [f1][..0] == [];
    assert NestedNodes(g, [f1], Hop(Rcgs + "carrierType")) == [Literal(a, None)];
  }

  /** Two format nodes with carrier types a and b (DVD and Cartridge, say):
      the subject's carrier-type field is "a|b", in store order of the format
      nodes. */
  lemma FormatCarrierTypes(p: Node, f1: Node, f2: Node, a: string, b: string)
    requires f1 != f2
    ensures ColumnEntries(CarrierStore(p, f1, f2, a, b), p, PackageFormat)[1]
            == Entry("format_rcgs_carrierType", a + "|" + b)
  {
    var g := CarrierStore(p, f1, f2, a, b);
    var nodes := [Literal(a, None), Literal(b, None)];
    assert NestedNodes(g, Objects(g, p, Dcterms + "format"), Hop(Rcgs + "carrierType")) == nodes by {
      CarrierStoreFormats(p, f1, f2, a, b);
      CarrierStoreNested(p, f1, f2, a, b);
    }
    CarrierField(g, p, nodes);
    assert Join(Strs(nodes)) == a + "|" + b by {
      assert Strs(nodes) == [a, b];
    }
  }

  /** The carrier-type field of any subject joins the carrier types of its
      format nodes. */
  lemma CarrierField(g: Graph, p: Node, nodes: seq<Node>)
    requires NestedNodes(g, Objects(g, p, Dcterms + "format"), Hop(Rcgs + "carrierType")) == nodes
    ensures ColumnEntries(g, p, PackageFormat)[1]
            == Entry("format_rcgs_carrierType", Join(Strs(nodes)))
  {
    var c := PackageFormat;
    var part := Part("format_rcgs_carrierType", Hop(Rcgs + "carrierType"));
    assert c.Nested? && 1 < |c.parts| && c.parts[1] == part && c.pred == Dcterms + "format";
    NestedColumnAt(g, p, c, 1);
  }

  // An item whose exemplarOf points at a node that is not typed rcgs:Package.

  function JoinStore(i: Node, w: Node): (store: Graph)
  {
    [Triple(i, RdfType, ItemClass), Triple(i, ExemplarOf, w)]
  }

  lemma JoinStoreQueries(i: Node, w: Node)
    ensures Objects(JoinStore(i, w), i, ExemplarOf) == [w]
    ensures SubjectsOfType(JoinStore(i, w), ItemClass) == [i]
    ensures !Has(JoinStore(i, w), w, RdfType, PackageClass)
  {
    var g := JoinStore(i, w);
    assert g[..1] == [g[0]] && g[..1][..0] == [];
    assert Objects(g[..1], i, ExemplarOf) == [];
    assert SubjectsOfType(g[..1], ItemClass) == [i];
  }

  /** The two joins disagree on such an item: the item table's exemplarOf is
      "" because no exemplarOf object is a Package, while the item is still
      selected as a related item and its row takes exemplarOf, and every
      package field, from that node. */
  lemma RelatedJoinUnchecked(i: Node, w: Node)
    ensures Record(JoinStore(i, w), i, "resource_uri", ItemLayout)[1] == Entry("exemplarOf", "")
    ensures RelatedSelection(JoinStore(i, w)) == [i]
    ensures RelatedRecord(JoinStore(i, w), i)
            == Record(JoinStore(i, w), i, "item_uri", RelatedItemLayout)
               + ([Entry("exemplarOf", Str(w))] + LayoutEntries(JoinStore(i, w), w, RelatedPackageLayout))
  {
    var g := JoinStore(i, w);
    JoinStoreQueries(i, w);
    assert Record(g, i, "resource_uri", ItemLayout)[1] == Entry("exemplarOf", "") by {
      ItemRow(g, i);
    }
    assert RelatedSelection(g) == [i] by {
      assert [i][..0] == [];
    }
    RelatedFillUnreachable(g, i);
  }

  // A store holding a single package with one English name.

  function NameStore(p: Node, name: string): (store: Graph)
  {
    [Triple(p, RdfType, PackageClass), Triple(p, Schema + "name", Literal(name, Some("en")))]
  }

  lemma NameStoreObjects(p: Node, name: string, q: string)
    ensures Objects(NameStore(p, name), p, q)
            == if q == RdfType then [PackageClass] else if q == Schema + "name" then [Literal(name, Some("en"))] else []
    ensures RdfType != Schema + "name"
  {
    var g := NameStore(p, name);
    assert g[..1] == [g[0]] && g[..1][..0] == [];
    assert RdfType != Schema + "name";
  }

  lemma SinglePackageSelected(p: Node, name: string)
    ensures SubjectsOfType(NameStore(p, name), PackageClass) == [p]
  {
    var g := NameStore(p, name);
    assert g[..1] == [g[0]] && g[..1][..0] == [];
    assert SubjectsOfType(g[..1], PackageClass) == [p];
  }

  /** A property table read on the single-package store: the name property
      holds the name, the type property the rcgs:Package IRI, any other
      property nothing. */
  lemma NameStoreDirects(p: Node, name: string, uriKey: string, props: seq<Property>, rest: seq<Column>)
    ensures |Record(NameStore(p, name), p, uriKey, Directs(props) + rest)| > |props|
    ensures var r := Record(NameStore(p, name), p, uriKey, Directs(props) + rest);
            forall j :: 0 <= j < |props| ==>
              r[1 + j].value == if props[j].pred == Schema + "name" then name
                                else if props[j].pred == RdfType then Str(PackageClass)
                                else ""
  {
    var g := NameStore(p, name);
    var r := Record(g, p, uriKey, Directs(props) + rest);
    assert |r| > |props| && forall j :: 0 <= j < |props| ==> r[1 + j].value == Join(Strs(Objects(g, p, props[j].pred))) by {
      DirectPrefix(g, p, uriKey, props, rest);
    }
    forall j | 0 <= j < |props|
      ensures r[1 + j].value == if props[j].pred == Schema + "name" then name
                                else if props[j].pred == RdfType then Str(PackageClass)
                                else ""
    {
      NameStoreField(p, name, props[j].pred);
    }
  }

  /** The joined field of any property on the single-package store. */
  lemma NameStoreField(p: Node, name: string, q: string)
    ensures Join(Strs(Objects(NameStore(p, name), p, q)))
            == if q == Schema + "name" then name else if q == RdfType then Str(PackageClass) else ""
  {
    var os := Objects(NameStore(p, name), p, q);
    NameStoreObjects(p, name, q);
    if q == Schema + "name" {
      assert os == [Literal(name, Some("en"))];
      StrsAt(os, 0);
    } else if q == RdfType {
      assert os == [PackageClass];
      StrsAt(os, 0);
    } else {
      assert os == [];
    }
  }

  /** In the single package's row, schema_name holds the name, rdf_type holds
      the rcgs:Package IRI (from the package's own type triple), and every
      other property field is empty. */
  lemma SinglePackageProperties(p: Node, name: string)
    ensures |Record(NameStore(p, name), p, "resource_uri", PackageLayout)| > |PackageProperties|
    ensures var r := Record(NameStore(p, name), p, "resource_uri", PackageLayout);
            forall j :: 0 <= j < |PackageProperties| ==>
              r[1 + j].value == if PackageProperties[j].pred == Schema + "name" then name
                                else if PackageProperties[j].pred == RdfType then Str(PackageClass)
                                else ""
  {
    NameStoreDirects(p, name, "resource_uri", PackageProperties,
                     [PackageTitle, PackageFormat, PackageSubunit, PackageProvision]);
  }

  /** Columns after a property table whose properties have no object on s
      contribute only empty fields. */
  lemma EmptyTail(g: Graph, s: Node, uriKey: string, props: seq<Property>, a: Column, b: Column, c: Column, d: Column)
    requires Objects(g, s, a.pred) == [] && Objects(g, s, b.pred) == []
    requires Objects(g, s, c.pred) == [] && Objects(g, s, d.pred) == []
    ensures |Record(g, s, uriKey, Directs(props) + [a, b, c, d])| > |props|
    ensures forall e :: e in Record(g, s, uriKey, Directs(props) + [a, b, c, d])[1 + |props|..] ==> e.value == ""
  {
    DirectPrefix(g, s, uriKey, props, [a, b, c, d]);
    FourColumns(g, s, a, b, c, d);
    NoObjectsEmptyEntries(g, s, a);
    NoObjectsEmptyEntries(g, s, b);
    NoObjectsEmptyEntries(g, s, c);
    NoObjectsEmptyEntries(g, s, d);
  }

  /** ... and the title, format, subunit and provision-activity fields are
      all empty. */
  lemma SinglePackageRest(p: Node, name: string)
    ensures |Record(NameStore(p, name), p, "resource_uri", PackageLayout)| > |PackageProperties|
    ensures forall e :: e in Record(NameStore(p, name), p, "resource_uri", PackageLayout)[1 + |PackageProperties|..] ==>
              e.value == ""
  {
    TailPredicates();
    NameStoreTail(p, name, "resource_uri", PackageProperties,
                  PackageTitle, PackageFormat, PackageSubunit, PackageProvision);
  }

  /** The special properties that have no object in the one-package store:
      the IRIs read by the title, format, subunit and provision-activity
      columns differ from rdf:type and schema:name (in their eighth
      character), the only predicates NameStore holds. */
  lemma TailPredicates()
    ensures PackageTitle.pred != RdfType && PackageTitle.pred != Schema + "name"
    ensures PackageFormat.pred != RdfType && PackageFormat.pred != Schema + "name"
    ensures PackageSubunit.pred != RdfType && PackageSubunit.pred != Schema + "name"
    ensures PackageProvision.pred != RdfType && PackageProvision.pred != Schema + "name"
  {
    assert PackageTitle.pred[7] != RdfType[7] && PackageTitle.pred[7] != (Schema + "name")[7];
    assert PackageFormat.pred[7] != RdfType[7] && PackageFormat.pred[7] != (Schema + "name")[7];
    assert PackageSubunit.pred[7] != RdfType[7] && PackageSubunit.pred[7] != (Schema + "name")[7];
    assert PackageProvision.pred[7] != RdfType[7] && PackageProvision.pred[7] != (Schema + "name")[7];
  }

  /** On the single-package store, columns reading neither rdf:type nor
      schema:name give only empty fields. */
  lemma NameStoreTail(p: Node, name: string, uriKey: string, props: seq<Property>, a: Column, b: Column, c: Column, d: Column)
    requires a.pred != RdfType && a.pred != Schema + "name"
    requires b.pred != RdfType && b.pred != Schema + "name"
    requires c.pred != RdfType && c.pred != Schema + "name"
    requires d.pred != RdfType && d.pred != Schema + "name"
    ensures |Record(NameStore(p, name), p, uriKey, Directs(props) + [a, b, c, d])| > |props|
    ensures forall e :: e in Record(NameStore(p, name), p, uriKey, Directs(props) + [a, b, c, d])[1 + |props|..] ==>
              e.value == ""
  {
    NameStoreObjects(p, name, a.pred);
    NameStoreObjects(p, name, b.pred);
    NameStoreObjects(p, name, c.pred);
    NameStoreObjects(p, name, d.pred);
    EmptyTail(NameStore(p, name), p, uriKey, props, a, b, c, d);
  }

  /** Tags are matched exactly: a title transcription tagged "ja-hrkt" (lower
      case) lands in neither the ja-Hrkt nor the ja-Latn field. */
  lemma TitleTagMatchIsExact(x: string)
    ensures Tagged([Literal(x, Some("ja-hrkt"))], "ja-Hrkt") == []
    ensures TaggedElse([Literal(x, Some("ja-hrkt"))], "ja-Hrkt", "ja-Latn") == []
  {
    assert "ja-hrkt"[3] != "ja-Hrkt"[3] && "ja-hrkt"[3] != "ja-Latn"[3];
    assert [Literal(x, Some("ja-hrkt"))][..0] == [];
  }
}
