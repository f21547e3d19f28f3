/** The loops that fill one row: each walks the objects of a query in store
    order and appends str(obj) to a value list, exactly as the extractors do,
    and is proved to produce what the functions of module Fields describe. */
module Collect {
  import opened RdfGraph
  import opened Multivalue
  import opened Fields
  import opened SeqFacts

  /** `for obj in objs: values.append(str(obj))` */
  method AppendStrs(values: seq<string>, objs: seq<Node>) returns (r: seq<string>)
    ensures r == values + Strs(objs)
  {
    r := values;
    for i := 0 to |objs|
      invariant r == values + Strs(objs[..i])
    {
      assert objs[..i + 1][..i] == objs[..i];
      r := r + [Str(objs[i])];
    }
    assert objs[..|objs|] == objs;
  }

  /** The values of a direct property: every object, or under a truthy
      language filter only the literals tagged exactly with it. */
  method CollectDirect(g: Graph, s: Node, p: string, filter: Option<string>) returns (values: seq<string>)
    ensures values == Strs(Filtered(Objects(g, s, p), filter))
    ensures FilterActive(filter) ==>
      forall v :: v in values ==> exists o :: Has(g, s, p, o) && HasLang(o, filter.value) && Str(o) == v
  {
    var objs := Objects(g, s, p);
    values := [];
    for i := 0 to |objs|
      invariant values == Strs(Filtered(objs[..i], filter))
    {
      var obj := objs[i];
      FilteredPrefix(objs, i, filter);
      if FilterActive(filter) {
        if obj.Literal? && obj.lang == Some(filter.value) {
          values := values + [Str(obj)];
        }
      } else {
        values := values + [Str(obj)];
      }
    }
    assert objs[..|objs|] == objs;
    if FilterActive(filter) {
      TaggedStrsWitness(g, s, p, filter.value);
    }
  }

  /** The if/elif language split over objects(s, p). */
  method CollectLangPair(g: Graph, s: Node, p: string, tag1: string, tag2: string)
    returns (first: seq<string>, second: seq<string>)
    ensures first == Strs(Tagged(Objects(g, s, p), tag1))
    ensures second == Strs(TaggedElse(Objects(g, s, p), tag1, tag2))
  {
    var objs := Objects(g, s, p);
    first, second := [], [];
    for i := 0 to |objs|
      invariant first == Strs(Tagged(objs[..i], tag1))
      invariant second == Strs(TaggedElse(objs[..i], tag1, tag2))
    {
      var obj := objs[i];
      TaggedPrefix(objs, i, tag1);
      TaggedElsePrefix(objs, i, tag1, tag2);
      StrsSnoc(Tagged(objs[..i], tag1), obj);
      StrsSnoc(TaggedElse(objs[..i], tag1, tag2), obj);
      if obj.Literal? {
        if obj.lang == Some(tag1) {
          first := first + [Str(obj)];
        } else if obj.lang == Some(tag2) {
          second := second + [Str(obj)];
        }
      }
    }
    assert objs[..|objs|] == objs;
  }

  /** What one intermediate node contributes to one field. */
  method AppendPath(g: Graph, values: seq<string>, node: Node, path: SubPath) returns (r: seq<string>)
    ensures r == values + Strs(PathNodes(g, node, path))
  {
    match path
    case Hop(p) =>
      r := AppendStrs(values, Objects(g, node, p));
    case Hop2(p, q) =>
      var mids := Objects(g, node, p);
      r := values;
      for i := 0 to |mids|
        invariant r == values + Strs(HopNodes(g, mids[..i], q))
      {
        HopNodesPrefix(g, mids, i, q);
        StrsAppend(HopNodes(g, mids[..i], q), Objects(g, mids[i], q));
        Assoc(values, Strs(HopNodes(g, mids[..i], q)), Strs(Objects(g, mids[i], q)));
        r := AppendStrs(r, Objects(g, mids[i], q));
      }
      assert mids[..|mids|] == mids;
  }

  /** One pass over the intermediate nodes objects(s, pred); for each node,
      every part's list grows by what that node contributes. */
  method CollectNested(g: Graph, s: Node, pred: string, parts: seq<Part>) returns (lists: seq<seq<string>>)
    ensures |lists| == |parts|
    ensures forall k :: 0 <= k < |parts| ==> lists[k] == Strs(NestedNodes(g, Objects(g, s, pred), parts[k].path))
  {
    var nodes := Objects(g, s, pred);
    lists := seq(|parts|, _ => []);
    for i := 0 to |nodes|
      invariant |lists| == |parts|
      invariant forall k :: 0 <= k < |parts| ==> lists[k] == Strs(NestedNodes(g, nodes[..i], parts[k].path))
    {
      var node := nodes[i];
      var next := lists;
      for k := 0 to |parts|
        invariant |next| == |parts|
        invariant forall j :: 0 <= j < k ==> next[j] == Strs(NestedNodes(g, nodes[..i + 1], parts[j].path))
        invariant forall j :: k <= j < |parts| ==> next[j] == lists[j]
      {
        NestedNodesPrefix(g, nodes, i, parts[k].path);
        StrsAppend(NestedNodes(g, nodes[..i], parts[k].path), PathNodes(g, node, parts[k].path));
        var grown := AppendPath(g, next[k], node, parts[k].path);
        next := next[k := grown];
      }
      lists := next;
    }
    assert nodes[..|nodes|] == nodes;
  }

  /** The for/else search of the Item -> Package join: the first candidate
      typed `target`, or None when the loop ends without a break. */
  method FindFirstOfType(g: Graph, cands: seq<Node>, target: Node) returns (found: Option<Node>)
    ensures found == FirstOfType(g, cands, target)
    ensures found.None? <==> forall k :: 0 <= k < |cands| ==> !Has(g, cands[k], RdfType, target)
    ensures found.Some? ==> found.value in cands && Has(g, found.value, RdfType, target)
  {
    found := None;
    var i := 0;
    while i < |cands|
      invariant 0 <= i <= |cands|
      invariant FirstOfType(g, cands, target) == FirstOfType(g, cands[i..], target)
      invariant forall k :: 0 <= k < i ==> !Has(g, cands[k], RdfType, target)
    {
      assert cands[i..][1..] == cands[i + 1..];
      if Has(g, cands[i], RdfType, target) {
        found := Some(cands[i]);
        break;
      }
      i := i + 1;
    }
    FirstOfTypeSpec(g, cands, target);
  }

  /** `row[name] = "|".join(values) if values else ""` */
  method AppendDirect(g: Graph, s: Node, row: Row, c: Column) returns (r: Row)
    requires c.Direct?
    ensures r == row + ColumnEntries(g, s, c)
  {
    var values := CollectDirect(g, s, c.pred, c.filter);
    r := row + [Entry(c.name, if |values| > 0 then Join(values) else "")];
  }

  method AppendLangPair(g: Graph, s: Node, row: Row, c: Column) returns (r: Row)
    requires c.LangPair?
    ensures r == row + ColumnEntries(g, s, c)
  {
    var first, second := CollectLangPair(g, s, c.pred, c.tag1, c.tag2);
    r := row + [Entry(c.name1, Join(first)), Entry(c.name2, Join(second))];
  }

  method AppendNested(g: Graph, s: Node, row: Row, c: Column) returns (r: Row)
    requires c.Nested?
    ensures r == row + ColumnEntries(g, s, c)
  {
    var parts := c.parts;
    var nodes := Objects(g, s, c.pred);
    var lists := CollectNested(g, s, c.pred, parts);
    r := row;
    for k := 0 to |parts|
      invariant r == row + NestedEntries(g, nodes, parts[..k])
    {
      NestedEntriesPrefix(g, nodes, parts, k);
      Assoc(row, NestedEntries(g, nodes, parts[..k]), [Entry(parts[k].name, Join(lists[k]))]);
      r := r + [Entry(parts[k].name, Join(lists[k]))];
    }
    assert parts[..|parts|] == parts;
  }

  /** The Item -> Package join: `if exemplar_of: for ... break / else ""`. */
  method AppendTypedJoin(g: Graph, s: Node, row: Row, c: Column) returns (r: Row)
    requires c.TypedJoin?
    ensures r == row + ColumnEntries(g, s, c)
  {
    var cands := Objects(g, s, c.pred);
    if |cands| > 0 {
      var found := FindFirstOfType(g, cands, c.target);
      if found.Some? {
        r := row + [Entry(c.name, Str(found.value))];
      } else {
        r := row + [Entry(c.name, "")];
      }
    } else {
      r := row + [Entry(c.name, "")];
    }
  }

  /** Adds the entries of one column to a row. */
  method AppendColumn(g: Graph, s: Node, row: Row, c: Column) returns (r: Row)
    ensures r == row + ColumnEntries(g, s, c)
  {
    match c
    case Direct(_, _, _) => r := AppendDirect(g, s, row, c);
    case LangPair(_, _, _, _, _) => r := AppendLangPair(g, s, row, c);
    case Nested(_, _) => r := AppendNested(g, s, row, c);
    case TypedJoin(_, _, _) => r := AppendTypedJoin(g, s, row, c);
  }

  /** Adds the entries of every column of a layout, in declaration order. */
  method AppendLayout(g: Graph, s: Node, row: Row, cols: seq<Column>) returns (r: Row)
    ensures r == row + LayoutEntries(g, s, cols)
  {
    r := row;
    for j := 0 to |cols|
      invariant r == row + LayoutEntries(g, s, cols[..j])
    {
      assert cols[..j + 1][..j] == cols[..j];
      r := AppendColumn(g, s, r, cols[j]);
      Assoc(row, LayoutEntries(g, s, cols[..j]), ColumnEntries(g, s, cols[j]));
    }
    assert cols[..|cols|] == cols;
  }

  /** `row = {uriKey: str(s)}`, then every column of the layout. */
  method BuildRecord(g: Graph, s: Node, uriKey: string, cols: seq<Column>) returns (row: Row)
    ensures row == Record(g, s, uriKey, cols)
    ensures |row| == 1 + |LayoutKeys(cols)| && row[0] == Entry(uriKey, Str(s))
  {
    row := AppendLayout(g, s, [Entry(uriKey, Str(s))], cols);
    RecordSchema(g, s, uriKey, cols);
  }
}
