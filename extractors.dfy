/** The seven extractors of convert.py. Each selects its subjects, returns
    None when there are none, and otherwise builds one row per subject, in
    selection order, appending every row to the table. */
module Extractors {
  import opened RdfGraph
  import opened Multivalue
  import opened Fields
  import opened SeqFacts
  import opened Collect
  import opened Layouts

  type Table = seq<Row>

  /** t has one row per subject, in order, each built from the layout. */
  predicate IsTableOf(g: Graph, t: Table, subjects: seq<Node>, uriKey: string, cols: seq<Column>)
  {
    |t| == |subjects| && forall i :: 0 <= i < |t| ==> t[i] == Record(g, subjects[i], uriKey, cols)
  }

  /** The shared loop of the six layout-driven extractors. */
  method ExtractTable(g: Graph, subjects: seq<Node>, uriKey: string, cols: seq<Column>) returns (t: Option<Table>)
    ensures t.None? <==> |subjects| == 0
    ensures t.Some? ==> IsTableOf(g, t.value, subjects, uriKey, cols)
    ensures t.Some? ==> forall i :: 0 <= i < |t.value| ==>
              Keys(t.value[i]) == [uriKey] + LayoutKeys(cols) && t.value[i][0] == Entry(uriKey, Str(subjects[i]))
  {
    if |subjects| == 0 {
      return None;
    }
    var rows := BuildRows(g, subjects, uriKey, cols);
    TableSchema(g, rows, subjects, uriKey, cols);
    t := Some(rows);
  }

  /** f applied to each element of xs, in order. */
  function MapSeq<T, U>(f: T -> U, xs: seq<T>): (ys: seq<U>)
    ensures |ys| == |xs|
  {
    if xs == [] then [] else MapSeq(f, xs[..|xs| - 1]) + [f(xs[|xs| - 1])]
  }

  lemma {:induction false} MapSeqIndex<T, U>(f: T -> U, xs: seq<T>, k: nat)
    requires k < |xs|
    ensures MapSeq(f, xs)[k] == f(xs[k])
  {
    var init := xs[..|xs| - 1];
    if k < |init| {
      MapSeqIndex(f, init, k);
      assert init[k] == xs[k];
    }
  }

  /** The row builder of a layout. */
  function RecordOf(g: Graph, uriKey: string, cols: seq<Column>): (build: Node -> Row)
  {
    s => Record(g, s, uriKey, cols)
  }

  /** The rows of the given subjects, in order. */
  function Records(g: Graph, subjects: seq<Node>, uriKey: string, cols: seq<Column>): (t: Table)
    ensures |t| == |subjects|
  {
    MapSeq(RecordOf(g, uriKey, cols), subjects)
  }

  lemma RecordsIndex(g: Graph, subjects: seq<Node>, uriKey: string, cols: seq<Column>, k: nat)
    requires k < |subjects|
    ensures Records(g, subjects, uriKey, cols)[k] == Record(g, subjects[k], uriKey, cols)
  {
    MapSeqIndex(RecordOf(g, uriKey, cols), subjects, k);
  }

  lemma RecordsAt(g: Graph, subjects: seq<Node>, uriKey: string, cols: seq<Column>)
    ensures IsTableOf(g, Records(g, subjects, uriKey, cols), subjects, uriKey, cols)
  {
    forall k | 0 <= k < |subjects|
      ensures Records(g, subjects, uriKey, cols)[k] == Record(g, subjects[k], uriKey, cols)
    {
      RecordsIndex(g, subjects, uriKey, cols, k);
    }
  }

  /** `for resource in resources: ... data.append(row)` */
  method BuildRows(g: Graph, subjects: seq<Node>, uriKey: string, cols: seq<Column>) returns (rows: Table)
    ensures IsTableOf(g, rows, subjects, uriKey, cols)
  {
    rows := [];
    for i := 0 to |subjects|
      invariant rows == Records(g, subjects[..i], uriKey, cols)
    {
      var row := BuildRecord(g, subjects[i], uriKey, cols);
      TakeSnoc(subjects, i);
      rows := rows + [row];
    }
    TakeAll(subjects);
    RecordsAt(g, subjects, uriKey, cols);
  }

  /** Every row of a table built from a layout has the layout's keys, with
      the subject's IRI first. */
  lemma TableSchema(g: Graph, t: Table, subjects: seq<Node>, uriKey: string, cols: seq<Column>)
    requires IsTableOf(g, t, subjects, uriKey, cols)
    ensures forall i :: 0 <= i < |t| ==>
              Keys(t[i]) == [uriKey] + LayoutKeys(cols) && t[i][0] == Entry(uriKey, Str(subjects[i]))
  {
    forall i | 0 <= i < |t|
      ensures Keys(t[i]) == [uriKey] + LayoutKeys(cols) && t[i][0] == Entry(uriKey, Str(subjects[i]))
    {
      RecordSchema(g, subjects[i], uriKey, cols);
    }
  }

  method ExtractGamePackages(g: Graph) returns (t: Option<Table>)
    ensures t.None? <==> |SubjectsOfType(g, PackageClass)| == 0
    ensures t.Some? ==> IsTableOf(g, t.value, SubjectsOfType(g, PackageClass), "resource_uri", PackageLayout)
  {
    var resources := SubjectsOfType(g, PackageClass);
    t := ExtractTable(g, resources, "resource_uri", PackageLayout);
  }

  method ExtractItems(g: Graph) returns (t: Option<Table>)
    ensures t.None? <==> |SubjectsOfType(g, ItemClass)| == 0
    ensures t.Some? ==> IsTableOf(g, t.value, SubjectsOfType(g, ItemClass), "resource_uri", ItemLayout)
  {
    var resources := SubjectsOfType(g, ItemClass);
    t := ExtractTable(g, resources, "resource_uri", ItemLayout);
  }

  method ExtractPersons(g: Graph) returns (t: Option<Table>)
    ensures t.None? <==> |SubjectsOfType(g, PersonClass)| == 0
    ensures t.Some? ==> IsTableOf(g, t.value, SubjectsOfType(g, PersonClass), "resource_uri", PersonLayout)
  {
    var resources := SubjectsOfType(g, PersonClass);
    t := ExtractTable(g, resources, "resource_uri", PersonLayout);
  }

  method ExtractOrganizations(g: Graph) returns (t: Option<Table>)
    ensures t.None? <==> |SubjectsOfType(g, OrganizationClass)| == 0
    ensures t.Some? ==> IsTableOf(g, t.value, SubjectsOfType(g, OrganizationClass), "resource_uri", OrganizationLayout)
  {
    var resources := SubjectsOfType(g, OrganizationClass);
    t := ExtractTable(g, resources, "resource_uri", OrganizationLayout);
  }

  method ExtractVariations(g: Graph) returns (t: Option<Table>)
    ensures t.None? <==> |SubjectsOfType(g, VariationClass)| == 0
    ensures t.Some? ==> IsTableOf(g, t.value, SubjectsOfType(g, VariationClass), "resource_uri", VariationLayout)
  {
    var resources := SubjectsOfType(g, VariationClass);
    t := ExtractTable(g, resources, "resource_uri", VariationLayout);
  }

  method ExtractWorks(g: Graph) returns (t: Option<Table>)
    ensures t.None? <==> |SubjectsOfType(g, WorkClass)| == 0
    ensures t.Some? ==> IsTableOf(g, t.value, SubjectsOfType(g, WorkClass), "resource_uri", WorkLayout)
  {
    var resources := SubjectsOfType(g, WorkClass);
    t := ExtractTable(g, resources, "resource_uri", WorkLayout);
  }

  // ---------------------------------------------------------------------
  // Related items

  /** The subjects among xs that have at least one object of p, in order. */
  function WithObjects(g: Graph, xs: seq<Node>, p: string): (r: seq<Node>)
    ensures |r| <= |xs|
  {
    if xs == [] then []
    else
      var x := xs[|xs| - 1];
      WithObjects(g, xs[..|xs| - 1], p) + (if Objects(g, x, p) != [] then [x] else [])
  }

  /** The Items that have an exemplarOf, in store order. */
  function RelatedSelection(g: Graph): (items: seq<Node>)
  {
    WithObjects(g, SubjectsOfType(g, ItemClass), ExemplarOf)
  }

  lemma {:induction false} WithObjectsMembership(g: Graph, xs: seq<Node>, p: string, x: Node)
    ensures x in WithObjects(g, xs, p) <==> x in xs && Objects(g, x, p) != []
  {
    if xs != [] {
      WithObjectsMembership(g, xs[..|xs| - 1], p, x);
      assert xs == xs[..|xs| - 1] + [xs[|xs| - 1]];
    }
  }

  /** The selection keeps store order: selecting from two runs of candidates
      is selecting from each in turn. */
  lemma {:induction false} WithObjectsAppend(g: Graph, xs: seq<Node>, ys: seq<Node>, p: string)
    ensures WithObjects(g, xs + ys, p) == WithObjects(g, xs, p) + WithObjects(g, ys, p)
  {
    if ys == [] {
      assert xs + ys == xs;
    } else {
      var init := ys[..|ys| - 1];
      var y := ys[|ys| - 1];
      WithObjectsAppend(g, xs, init, p);
      assert (xs + ys)[..|xs + ys| - 1] == xs + init;
      Assoc(WithObjects(g, xs, p), WithObjects(g, init, p), if Objects(g, y, p) != [] then [y] else []);
    }
  }

  /** The selection is exactly the rcgs:Item subjects that have at least one
      exemplarOf object. */
  lemma RelatedSelectionMembership(g: Graph, x: Node)
    ensures x in RelatedSelection(g) <==> Has(g, x, RdfType, ItemClass) && exists o :: Has(g, x, ExemplarOf, o)
  {
    WithObjectsMembership(g, SubjectsOfType(g, ItemClass), ExemplarOf, x);
    SubjectsOfTypeMembership(g, ItemClass, x);
    if Objects(g, x, ExemplarOf) != [] {
      ObjectsMembership(g, x, ExemplarOf, Objects(g, x, ExemplarOf)[0]);
    }
    forall o | Has(g, x, ExemplarOf, o)
      ensures Objects(g, x, ExemplarOf) != []
    {
      ObjectsMembership(g, x, ExemplarOf, o);
    }
  }

  /** The selection loop: keep every Item whose exemplarOf list is non-empty. */
  method SelectRelatedItems(g: Graph) returns (items: seq<Node>)
    ensures items == RelatedSelection(g)
    ensures forall x :: x in items ==> Objects(g, x, ExemplarOf) != []
  {
    var candidates := SubjectsOfType(g, ItemClass);
    items := [];
    for i := 0 to |candidates|
      invariant items == WithObjects(g, candidates[..i], ExemplarOf)
      invariant forall x :: x in items ==> Objects(g, x, ExemplarOf) != []
    {
      assert candidates[..i + 1][..i] == candidates[..i];
      var item := candidates[i];
      var exemplarOf := Objects(g, item, ExemplarOf);
      if |exemplarOf| > 0 {
        items := items + [item];
      } else {
        assert WithObjects(g, candidates[..i + 1], ExemplarOf) == items + [];
      }
    }
    assert candidates[..|candidates|] == candidates;
  }

  /** Every key set to "" in a row, in order. */
  function Blanks(keys: seq<string>): (r: Row)
    ensures |r| == |keys|
  {
    if keys == [] then [] else Blanks(keys[..|keys| - 1]) + [Entry(keys[|keys| - 1], "")]
  }

  /** `for k in keys: row[k] = ""` */
  method BlankEntries(keys: seq<string>) returns (fill: Row)
    ensures fill == Blanks(keys)
    ensures Keys(fill) == keys
  {
    fill := [];
    for k := 0 to |keys|
      invariant fill == Blanks(keys[..k])
    {
      assert keys[..k + 1][..k] == keys[..k];
      fill := fill + [Entry(keys[k], "")];
    }
    assert keys[..|keys|] == keys;
    BlanksKeys(keys);
  }

  lemma {:induction false} BlanksKeys(keys: seq<string>)
    ensures Keys(Blanks(keys)) == keys
  {
    if keys != [] {
      BlanksKeys(keys[..|keys| - 1]);
      assert keys == keys[..|keys| - 1] + [keys[|keys| - 1]];
    }
  }

  /** The row of one related item: its own fields, then exemplarOf and the
      package fields read from the FIRST exemplarOf object (no type check);
      with no exemplarOf object, the package fields are filled with "". */
  function RelatedRow(g: Graph, item: Node, itemCols: seq<Column>, pkgCols: seq<Column>, fillKeys: seq<string>): (row: Row)
  {
    var exemplarOf := Objects(g, item, ExemplarOf);
    Record(g, item, "item_uri", itemCols)
      + if exemplarOf != [] then
          [Entry("exemplarOf", Str(exemplarOf[0]))] + LayoutEntries(g, exemplarOf[0], pkgCols)
        else
          [Entry("exemplarOf", "")] + Blanks(fillKeys)
  }

  function RelatedRecord(g: Graph, item: Node): (row: Row)
  {
    RelatedRow(g, item, RelatedItemLayout, RelatedPackageLayout, RelatedFillKeys)
  }

  method BuildRelatedRecord(g: Graph, item: Node) returns (row: Row)
    ensures row == RelatedRecord(g, item)
  {
    row := BuildRecord(g, item, "item_uri", RelatedItemLayout);
    var exemplarOf := Objects(g, item, ExemplarOf);
    if |exemplarOf| > 0 {
      var package := exemplarOf[0];
      var packageRow := AppendLayout(g, package, [Entry("exemplarOf", Str(package))], RelatedPackageLayout);
      row := row + packageRow;
    } else {
      var blanks := BlankEntries(RelatedFillKeys);
      var fill := [Entry("exemplarOf", "")] + blanks;
      row := row + fill;
    }
  }

  /** The row builder of the related-item table. */
  function RelatedRowOf(g: Graph, itemCols: seq<Column>, pkgCols: seq<Column>, fillKeys: seq<string>): (build: Node -> Row)
  {
    x => RelatedRow(g, x, itemCols, pkgCols, fillKeys)
  }

  /** The rows of the given related items, in order. */
  function RelatedRows(g: Graph, items: seq<Node>, itemCols: seq<Column>, pkgCols: seq<Column>, fillKeys: seq<string>): (t: Table)
    ensures |t| == |items|
  {
    MapSeq(RelatedRowOf(g, itemCols, pkgCols, fillKeys), items)
  }

  lemma RelatedRowsIndex(g: Graph, items: seq<Node>, itemCols: seq<Column>, pkgCols: seq<Column>,
                         fillKeys: seq<string>, k: nat)
    requires k < |items|
    ensures RelatedRows(g, items, itemCols, pkgCols, fillKeys)[k] == RelatedRow(g, items[k], itemCols, pkgCols, fillKeys)
  {
    MapSeqIndex(RelatedRowOf(g, itemCols, pkgCols, fillKeys), items, k);
  }

  method ExtractRelatedItems(g: Graph) returns (t: Option<Table>)
    ensures t.None? <==> |RelatedSelection(g)| == 0
    ensures t.Some? ==> |t.value| == |RelatedSelection(g)|
    ensures t.Some? ==> forall i :: 0 <= i < |t.value| ==> t.value[i] == RelatedRecord(g, RelatedSelection(g)[i])
  {
    var items := SelectRelatedItems(g);
    if |items| == 0 {
      return None;
    }
    var rows: Table := [];
    for i := 0 to |items|
      invariant rows == RelatedRows(g, items[..i], RelatedItemLayout, RelatedPackageLayout, RelatedFillKeys)
    {
      var row := BuildRelatedRecord(g, items[i]);
      TakeSnoc(items, i);
      rows := rows + [row];
    }
    TakeAll(items);
    forall k | 0 <= k < |rows|
      ensures rows[k] == RelatedRecord(g, items[k])
    {
      RelatedRowsIndex(g, items, RelatedItemLayout, RelatedPackageLayout, RelatedFillKeys, k);
    }
    t := Some(rows);
  }

  /** The keys of every related-item row. */
  function RelatedKeys(): (keys: seq<string>)
  {
    ["item_uri"] + LayoutKeys(RelatedItemLayout) + ["exemplarOf"] + LayoutKeys(RelatedPackageLayout)
  }

  /** Keys of a row made of an item record followed by exemplarOf and the
      package entries. */
  lemma JoinedRowKeys(head: Row, ex: Entry, pkg: Row)
    ensures Keys(head + ([ex] + pkg)) == Keys(head) + [ex.key] + Keys(pkg)
  {
    KeysAppend([ex], pkg);
    Single(ex);
    KeysAppend(head, [ex] + pkg);
    Assoc(Keys(head), [ex.key], Keys(pkg));
  }

  /** The fill branch is dead: every selected item has an exemplarOf object,
      so its row carries str of the first one and the package fields read
      from that node, under the same keys as every other row. */
  lemma RelatedFillUnreachable(g: Graph, x: Node)
    requires x in RelatedSelection(g)
    ensures Objects(g, x, ExemplarOf) != []
    ensures RelatedRecord(g, x)
              == Record(g, x, "item_uri", RelatedItemLayout)
                 + ([Entry("exemplarOf", Str(Objects(g, x, ExemplarOf)[0]))]
                    + LayoutEntries(g, Objects(g, x, ExemplarOf)[0], RelatedPackageLayout))
    ensures Keys(RelatedRecord(g, x)) == RelatedKeys()
    ensures RelatedRecord(g, x)[0] == Entry("item_uri", Str(x))
  {
    WithObjectsMembership(g, SubjectsOfType(g, ItemClass), ExemplarOf, x);
    var first := Objects(g, x, ExemplarOf)[0];
    JoinedRowKeys(Record(g, x, "item_uri", RelatedItemLayout), Entry("exemplarOf", Str(first)),
                  LayoutEntries(g, first, RelatedPackageLayout));
    RecordSchema(g, x, "item_uri", RelatedItemLayout);
    LayoutEntriesKeys(g, first, RelatedPackageLayout);
  }

  /** Every related-item table has one row per selected item and a single
      key schema. */
  lemma RelatedTableSchema(g: Graph, t: Table)
    requires |t| == |RelatedSelection(g)|
    requires forall i :: 0 <= i < |t| ==> t[i] == RelatedRecord(g, RelatedSelection(g)[i])
    ensures forall i :: 0 <= i < |t| ==>
              Keys(t[i]) == RelatedKeys() && t[i][0] == Entry("item_uri", Str(RelatedSelection(g)[i]))
  {
    forall i | 0 <= i < |t|
      ensures Keys(t[i]) == RelatedKeys() && t[i][0] == Entry("item_uri", Str(RelatedSelection(g)[i]))
    {
      RelatedFillUnreachable(g, RelatedSelection(g)[i]);
    }
  }
}
