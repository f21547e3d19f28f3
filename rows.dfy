/** The rows of each table, field by field: which property every field reads,
    where the language pairs sit, and what the joins contribute. */
module Rows {
  import opened RdfGraph
  import opened Multivalue
  import opened Fields
  import opened SeqFacts
  import opened Layouts

  /** A row whose layout starts with a property table: the key field, then
      one field per property in table order, then the rest of the layout. */
  lemma DirectPrefix(g: Graph, s: Node, uriKey: string, props: seq<Property>, rest: seq<Column>)
    ensures var r := Record(g, s, uriKey, Directs(props) + rest);
            && |r| == 1 + |props| + |LayoutEntries(g, s, rest)|
            && r[0] == Entry(uriKey, Str(s))
            && (forall j :: 0 <= j < |props| ==>
                  r[1 + j] == Entry(props[j].name, Join(Strs(Objects(g, s, props[j].pred)))))
            && r[1 + |props|..] == LayoutEntries(g, s, rest)
  {
    var u := Entry(uriKey, Str(s));
    var x, y := LayoutEntries(g, s, Directs(props)), LayoutEntries(g, s, rest);
    assert |x| == |props| by { DirectEntries(g, s, props); }
    assert Record(g, s, uriKey, Directs(props) + rest) == [u] + x + y by {
      RecordSplit(g, s, uriKey, Directs(props), rest);
    }
    forall j | 0 <= j < |props|
      ensures Record(g, s, uriKey, Directs(props) + rest)[1 + j]
              == Entry(props[j].name, Join(Strs(Objects(g, s, props[j].pred))))
    {
      DirectEntryAt(g, s, props, j);
      IndexMid(u, x, y, j);
    }
    DropHead(u, x, y);
  }

  lemma OneColumn(g: Graph, s: Node, d: Column)
    ensures LayoutEntries(g, s, [d]) == ColumnEntries(g, s, d)
  {
    Single(d);
  }

  lemma ConsColumn(g: Graph, s: Node, c: Column, rest: seq<Column>, tail: seq<Entry>)
    requires LayoutEntries(g, s, rest) == tail
    ensures LayoutEntries(g, s, [c] + rest) == ColumnEntries(g, s, c) + tail
  {
    LayoutEntriesCons(g, s, c, rest);
  }

  lemma TwoColumns(g: Graph, s: Node, c: Column, d: Column)
    ensures LayoutEntries(g, s, [c, d]) == ColumnEntries(g, s, c) + ColumnEntries(g, s, d)
  {
    OneColumn(g, s, d);
    ConsColumn(g, s, c, [d], ColumnEntries(g, s, d));
    Cons2(c, d);
  }

  lemma ThreeColumns(g: Graph, s: Node, b: Column, c: Column, d: Column)
    ensures LayoutEntries(g, s, [b, c, d]) == ColumnEntries(g, s, b) + ColumnEntries(g, s, c) + ColumnEntries(g, s, d)
  {
    TwoColumns(g, s, c, d);
    ConsColumn(g, s, b, [c, d], ColumnEntries(g, s, c) + ColumnEntries(g, s, d));
    Cons3(b, c, d);
    Assoc(ColumnEntries(g, s, b), ColumnEntries(g, s, c), ColumnEntries(g, s, d));
  }

  /** The entries of a four-column tail. */
  lemma FourColumns(g: Graph, s: Node, a: Column, b: Column, c: Column, d: Column)
    ensures LayoutEntries(g, s, [a, b, c, d])
            == ColumnEntries(g, s, a) + ColumnEntries(g, s, b) + ColumnEntries(g, s, c) + ColumnEntries(g, s, d)
  {
    var ea, eb, ec, ed := ColumnEntries(g, s, a), ColumnEntries(g, s, b), ColumnEntries(g, s, c), ColumnEntries(g, s, d);
    ThreeColumns(g, s, b, c, d);
    ConsColumn(g, s, a, [b, c, d], eb + ec + ed);
    Cons4(a, b, c, d);
    Assoc(ea, eb + ec, ed);
    Assoc(ea, eb, ec);
  }

  /** A game-package row: resource_uri, the 51 properties in table order, the
      two title transcriptions (exactly ja-Hrkt, exactly ja-Latn), then the
      format, subunit and provision-activity fields. */
  lemma PackageRow(g: Graph, s: Node)
    ensures var r := Record(g, s, "resource_uri", PackageLayout);
            var titles := Objects(g, s, TitleTranscription);
            && |r| == 1 + |PackageProperties| + 2 + 8 + 8 + 6
            && r[0] == Entry("resource_uri", Str(s))
            && (forall j :: 0 <= j < |PackageProperties| ==>
                  r[1 + j] == Entry(PackageProperties[j].name, Join(Strs(Objects(g, s, PackageProperties[j].pred)))))
            && r[1 + |PackageProperties|..]
               == [Entry("dcndl_titleTranscription_jaHrkt", Join(Strs(Tagged(titles, "ja-Hrkt")))),
                   Entry("dcndl_titleTranscription_jaLatn", Join(Strs(Tagged(titles, "ja-Latn"))))]
                  + ColumnEntries(g, s, PackageFormat) + ColumnEntries(g, s, PackageSubunit) + ColumnEntries(g, s, PackageProvision)
  {
    DirectPrefix(g, s, "resource_uri", PackageProperties, [PackageTitle, PackageFormat, PackageSubunit, PackageProvision]);
    FourColumns(g, s, PackageTitle, PackageFormat, PackageSubunit, PackageProvision);
    LangPairField(g, s, PackageTitle);
  }

  /** A row made of a property table only. */
  lemma DirectsOnly(g: Graph, s: Node, uriKey: string, props: seq<Property>)
    ensures var r := Record(g, s, uriKey, Directs(props));
            && |r| == 1 + |props|
            && r[0] == Entry(uriKey, Str(s))
            && (forall j :: 0 <= j < |props| ==>
                  r[1 + j] == Entry(props[j].name, Join(Strs(Objects(g, s, props[j].pred)))))
  {
    DirectPrefix(g, s, uriKey, props, []);
    assert Directs(props) + [] == Directs(props);
  }

  /** A row laid out as a language pair, a property table and a one-part
      nested column (persons and organizations). */
  lemma PairPropsNested(g: Graph, s: Node, uriKey: string, c: Column, props: seq<Property>, t: Column)
    requires c.LangPair? && c.tag1 != c.tag2
    requires t.Nested? && |t.parts| == 1
    ensures var r := Record(g, s, uriKey, [c] + Directs(props) + [t]);
            var os := Objects(g, s, c.pred);
            && |r| == 4 + |props|
            && r[0] == Entry(uriKey, Str(s))
            && r[1] == Entry(c.name1, Join(Strs(Tagged(os, c.tag1))))
            && r[2] == Entry(c.name2, Join(Strs(Tagged(os, c.tag2))))
            && (forall j :: 0 <= j < |props| ==>
                  r[3 + j] == Entry(props[j].name, Join(Strs(Objects(g, s, props[j].pred)))))
            && r[3 + |props|] == Entry(t.parts[0].name, Join(Strs(NestedNodes(g, Objects(g, s, t.pred), t.parts[0].path))))
  {
    var u := Entry(uriKey, Str(s));
    var os := Objects(g, s, c.pred);
    var pair, direct, last := ColumnEntries(g, s, c), LayoutEntries(g, s, Directs(props)), ColumnEntries(g, s, t);
    var r := Record(g, s, uriKey, [c] + Directs(props) + [t]);
    assert r == [u] + (pair + direct) + last by {
      RecordSplit(g, s, uriKey, [c] + Directs(props), [t]);
      OneColumn(g, s, t);
      LayoutEntriesCons(g, s, c, Directs(props));
    }
    assert pair == [Entry(c.name1, Join(Strs(Tagged(os, c.tag1)))), Entry(c.name2, Join(Strs(Tagged(os, c.tag2))))] by {
      LangPairField(g, s, c);
    }
    assert last == [Entry(t.parts[0].name, Join(Strs(NestedNodes(g, Objects(g, s, t.pred), t.parts[0].path))))] by {
      Singleton(t.parts);
      SinglePartColumn(g, s, t.pred, t.parts[0]);
    }
    assert |direct| == |props| by { DirectEntries(g, s, props); }
    Positions4(r, u, pair, direct, last);
    forall j | 0 <= j < |props|
      ensures r[3 + j] == Entry(props[j].name, Join(Strs(Objects(g, s, props[j].pred))))
    {
      DirectEntryAt(g, s, props, j);
      IndexAfterPair(u, pair, direct, last, j);
    }
  }

  /** A row laid out as a typed join followed by a property table (items). */
  lemma JoinThenProps(g: Graph, s: Node, uriKey: string, c: Column, props: seq<Property>)
    requires c.TypedJoin?
    ensures var r := Record(g, s, uriKey, [c] + Directs(props));
            var os := Objects(g, s, c.pred);
            && |r| == 2 + |props|
            && r[0] == Entry(uriKey, Str(s))
            && r[1].key == c.name
            && ((forall k :: 0 <= k < |Objects(g, s, c.pred)| ==> !Has(g, Objects(g, s, c.pred)[k], RdfType, c.target)) ==>
                  r[1].value == "")
            && (forall k :: FirstTyped(g, os, k, c.target) ==> r[1].value == Str(os[k]))
            && (forall j :: 0 <= j < |props| ==>
                  r[2 + j] == Entry(props[j].name, Join(Strs(Objects(g, s, props[j].pred)))))
  {
    var u := Entry(uriKey, Str(s));
    var r := Record(g, s, uriKey, [c] + Directs(props));
    var ce, de := ColumnEntries(g, s, c), LayoutEntries(g, s, Directs(props));
    TypedJoinField(g, s, c);
    assert r == [u] + ce + de by {
      LayoutEntriesCons(g, s, c, Directs(props));
      Assoc([u], ce, de);
    }
    assert |de| == |props| by { DirectEntries(g, s, props); }
    ThreePieces(r, u, ce, de);
    forall j | 0 <= j < |props|
      ensures r[2 + j] == Entry(props[j].name, Join(Strs(Objects(g, s, props[j].pred))))
    {
      DirectEntryAt(g, s, props, j);
    }
  }

  /** An item row: resource_uri, exemplarOf (the first exemplarOf object typed
      rcgs:Package, "" when there is none), then the four item properties. */
  lemma ItemRow(g: Graph, s: Node)
    ensures var r := Record(g, s, "resource_uri", ItemLayout);
            var os := Objects(g, s, ExemplarOf);
            && |r| == 2 + |ItemProperties|
            && r[0] == Entry("resource_uri", Str(s))
            && r[1].key == "exemplarOf"
            && ((forall k :: 0 <= k < |Objects(g, s, ExemplarOf)| ==> !Has(g, Objects(g, s, ExemplarOf)[k], RdfType, PackageClass)) ==>
                  r[1].value == "")
            && (forall k :: FirstTyped(g, os, k, PackageClass) ==> r[1].value == Str(os[k]))
            && (forall j :: 0 <= j < |ItemProperties| ==>
                  r[2 + j] == Entry(ItemProperties[j].name, Join(Strs(Objects(g, s, ItemProperties[j].pred)))))
  {
    JoinThenProps(g, s, "resource_uri", ItemExemplar, ItemProperties);
  }

  /** A person row: resource_uri, prefLabel_ja / prefLabel_en (exact tags),
      the 22 properties, then the sources of the adminMetadata nodes. */
  lemma PersonRow(g: Graph, s: Node)
    ensures var r := Record(g, s, "resource_uri", PersonLayout);
            var labels := Objects(g, s, PrefLabel);
            && |r| == 4 + |PersonProperties|
            && r[0] == Entry("resource_uri", Str(s))
            && r[1] == Entry("prefLabel_ja", Join(Strs(Tagged(labels, "ja"))))
            && r[2] == Entry("prefLabel_en", Join(Strs(Tagged(labels, "en"))))
            && (forall j :: 0 <= j < |PersonProperties| ==>
                  r[3 + j] == Entry(PersonProperties[j].name, Join(Strs(Objects(g, s, PersonProperties[j].pred)))))
            && r[3 + |PersonProperties|]
               == Entry("source", Join(Strs(NestedNodes(g, Objects(g, s, AdminMetadata), Hop(Dcterms + "source")))))
  {
    PairPropsNested(g, s, "resource_uri", PersonPrefLabel, PersonProperties, AdminSource);
  }

  /** An organization row: resource_uri, skos_prefLabel_ja / skos_prefLabel_en
      (exact tags), the 21 properties, then the adminMetadata sources. */
  lemma OrganizationRow(g: Graph, s: Node)
    ensures var r := Record(g, s, "resource_uri", OrganizationLayout);
            var labels := Objects(g, s, PrefLabel);
            && |r| == 4 + |OrganizationProperties|
            && r[0] == Entry("resource_uri", Str(s))
            && r[1] == Entry("skos_prefLabel_ja", Join(Strs(Tagged(labels, "ja"))))
            && r[2] == Entry("skos_prefLabel_en", Join(Strs(Tagged(labels, "en"))))
            && (forall j :: 0 <= j < |OrganizationProperties| ==>
                  r[3 + j] == Entry(OrganizationProperties[j].name, Join(Strs(Objects(g, s, OrganizationProperties[j].pred)))))
            && r[3 + |OrganizationProperties|]
               == Entry("source", Join(Strs(NestedNodes(g, Objects(g, s, AdminMetadata), Hop(Dcterms + "source")))))
  {
    PairPropsNested(g, s, "resource_uri", OrganizationPrefLabel, OrganizationProperties, AdminSource);
  }

  /** A variation row: resource_uri and the 21 properties, nothing else. */
  lemma VariationRow(g: Graph, s: Node)
    ensures var r := Record(g, s, "resource_uri", VariationLayout);
            && |r| == 1 + |VariationProperties|
            && r[0] == Entry("resource_uri", Str(s))
            && (forall j :: 0 <= j < |VariationProperties| ==>
                  r[1 + j] == Entry(VariationProperties[j].name, Join(Strs(Objects(g, s, VariationProperties[j].pred)))))
  {
    DirectsOnly(g, s, "resource_uri", VariationProperties);
  }

  /** A work row: resource_uri, the 39 properties, then one field per
      category holding the rdfs:label of every node the category leads to. */
  lemma WorkRow(g: Graph, s: Node)
    ensures var r := Record(g, s, "resource_uri", WorkLayout);
            && |r| == 1 + |WorkProperties| + |WorkCategoryProperties|
            && r[0] == Entry("resource_uri", Str(s))
            && (forall j :: 0 <= j < |WorkProperties| ==>
                  r[1 + j] == Entry(WorkProperties[j].name, Join(Strs(Objects(g, s, WorkProperties[j].pred)))))
            && (forall k :: 0 <= k < |WorkCategoryProperties| ==>
                  r[1 + |WorkProperties| + k]
                  == Entry(WorkCategoryProperties[k].name,
                           Join(Strs(NestedNodes(g, Objects(g, s, WorkCategoryProperties[k].pred), Hop(Rdfs + "label"))))))
  {
    DirectPrefix(g, s, "resource_uri", WorkProperties, WorkCategories);
    LabelledEntries(g, s, WorkCategoryProperties, Rdfs + "label");
  }

  /** The entries of a layout that starts with a property table. */
  lemma DirectPrefixEntries(g: Graph, s: Node, props: seq<Property>, rest: seq<Column>)
    ensures var e := LayoutEntries(g, s, Directs(props) + rest);
            && |e| == |props| + |LayoutEntries(g, s, rest)|
            && (forall j :: 0 <= j < |props| ==>
                  e[j] == Entry(props[j].name, Join(Strs(Objects(g, s, props[j].pred)))))
            && e[|props|..] == LayoutEntries(g, s, rest)
  {
    DirectEntries(g, s, props);
    LayoutEntriesAppend(g, s, Directs(props), rest);
  }

  lemma FiveColumns(g: Graph, s: Node, a: Column, b: Column, c: Column, d: Column, e: Column)
    ensures LayoutEntries(g, s, [a, b, c, d, e])
            == ColumnEntries(g, s, a) + (ColumnEntries(g, s, b) + ColumnEntries(g, s, c) + ColumnEntries(g, s, d) + ColumnEntries(g, s, e))
  {
    FourColumns(g, s, b, c, d, e);
    ConsColumn(g, s, a, [b, c, d, e], LayoutEntries(g, s, [b, c, d, e]));
    Cons5(a, b, c, d, e);
  }

  /** The package part of a related-item row, read from the package node p:
      the 54 properties, the two title transcriptions (exact tags), then the
      format, subunit, provision-activity and adminMetadata fields. */
  lemma RelatedPackageEntries(g: Graph, p: Node)
    ensures var e := LayoutEntries(g, p, RelatedPackageLayout);
            var titles := Objects(g, p, TitleTranscription);
            && |e| == |RelatedPackageProperties| + 2 + 6 + 6 + 6 + 1
            && (forall j :: 0 <= j < |RelatedPackageProperties| ==>
                  e[j] == Entry(RelatedPackageProperties[j].name, Join(Strs(Objects(g, p, RelatedPackageProperties[j].pred)))))
            && e[|RelatedPackageProperties|..]
               == [Entry("titleTranscription_jaHrkt", Join(Strs(Tagged(titles, "ja-Hrkt")))),
                   Entry("titleTranscription_jaLatn", Join(Strs(Tagged(titles, "ja-Latn"))))]
                  + (ColumnEntries(g, p, RelatedFormat) + ColumnEntries(g, p, RelatedSubunit)
                     + ColumnEntries(g, p, RelatedProvision) + ColumnEntries(g, p, RelatedAdminSource))
  {
    DirectPrefixEntries(g, p, RelatedPackageProperties,
                        [RelatedTitle, RelatedFormat, RelatedSubunit, RelatedProvision, RelatedAdminSource]);
    FiveColumns(g, p, RelatedTitle, RelatedFormat, RelatedSubunit, RelatedProvision, RelatedAdminSource);
    LangPairField(g, p, RelatedTitle);
  }

  /** format_source of a related package goes three hops from the package:
      format node, its adminMetadata node, that node's dcterms:source. */
  lemma RelatedFormatSource(g: Graph, p: Node, x: Node)
    ensures var sources := NestedNodes(g, Objects(g, p, Dcterms + "format"), Hop2(AdminMetadata, Dcterms + "source"));
            && ColumnEntries(g, p, RelatedFormat)[5] == Entry("format_source", Join(Strs(sources)))
            && (x in sources <==>
                  exists f, m :: Has(g, p, Dcterms + "format", f) && Has(g, f, AdminMetadata, m) && Has(g, m, Dcterms + "source", x))
  {
    var formats := Objects(g, p, Dcterms + "format");
    NestedEntriesAt(g, formats, RelatedFormat.parts);
    NestedNodesMembership(g, formats, Hop2(AdminMetadata, Dcterms + "source"), x);
    forall f | true
      ensures f in formats <==> Has(g, p, Dcterms + "format", f)
    {
      ObjectsMembership(g, p, Dcterms + "format", f);
    }
  }
}
