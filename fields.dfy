/** What one field of a row holds, stated as functions of the store.
    A row is built from a layout: an ordered list of columns, each of which
    is a direct property (optionally language-filtered), a pair of fields
    split by language tag, a group of fields reached through intermediate
    nodes, or the Item -> Package join. */
module Fields {
  import opened RdfGraph
  import opened Multivalue
  import opened SeqFacts

  // ---------------------------------------------------------------------
  // String forms

  /** str() of each node, in order. */
  function Strs(ns: seq<Node>): (vs: seq<string>)
    ensures |vs| == |ns|
  {
    if ns == [] then [] else Strs(ns[..|ns| - 1]) + [Str(ns[|ns| - 1])]
  }

  lemma {:induction false} StrsAt(ns: seq<Node>, i: nat)
    requires i < |ns|
    ensures Strs(ns)[i] == Str(ns[i])
  {
    if i < |ns| - 1 {
      StrsAt(ns[..|ns| - 1], i);
    }
  }

  lemma StrsSnoc(ns: seq<Node>, n: Node)
    ensures Strs(ns + [n]) == Strs(ns) + [Str(n)]
  {
    assert (ns + [n])[..|ns|] == ns;
  }

  lemma {:induction false} StrsAppend(a: seq<Node>, b: seq<Node>)
    ensures Strs(a + b) == Strs(a) + Strs(b)
  {
    if b == [] {
      assert a + b == a;
    } else {
      StrsAppend(a, b[..|b| - 1]);
      assert (a + b)[..|a + b| - 1] == a + b[..|b| - 1];
    }
  }

  // ---------------------------------------------------------------------
  // Language tags

  /** The object is a literal whose language tag is exactly `tag`
      (no case folding, no matching of sub-tags). */
  predicate HasLang(n: Node, tag: string)
  {
    n.Literal? && n.lang == Some(tag)
  }

  /** A property table's language filter is applied only when it is truthy:
      neither None nor the empty string. */
  predicate FilterActive(filter: Option<string>)
  {
    filter.Some? && filter.value != ""
  }

  /** The nodes tagged exactly `tag`, in order. */
  function Tagged(ns: seq<Node>, tag: string): (r: seq<Node>)
    ensures |r| <= |ns|
  {
    if ns == [] then []
    else
      var n := ns[|ns| - 1];
      Tagged(ns[..|ns| - 1], tag) + (if HasLang(n, tag) then [n] else [])
  }

  /** The nodes that reach the `elif` branch of a two-way language split:
      tagged `tag2` and not tagged `tag1`. */
  function TaggedElse(ns: seq<Node>, tag1: string, tag2: string): (r: seq<Node>)
    ensures |r| <= |ns|
  {
    if ns == [] then []
    else
      var n := ns[|ns| - 1];
      TaggedElse(ns[..|ns| - 1], tag1, tag2) + (if HasLang(n, tag2) && !HasLang(n, tag1) then [n] else [])
  }

  lemma TaggedPrefix(ns: seq<Node>, i: nat, tag: string)
    requires i < |ns|
    ensures HasLang(ns[i], tag) ==> Tagged(ns[..i + 1], tag) == Tagged(ns[..i], tag) + [ns[i]]
    ensures !HasLang(ns[i], tag) ==> Tagged(ns[..i + 1], tag) == Tagged(ns[..i], tag)
  {
    assert ns[..i + 1][..i] == ns[..i];
    assert Tagged(ns[..i], tag) + [] == Tagged(ns[..i], tag);
  }

  lemma TaggedElsePrefix(ns: seq<Node>, i: nat, tag1: string, tag2: string)
    requires i < |ns|
    ensures HasLang(ns[i], tag2) && !HasLang(ns[i], tag1) ==>
              TaggedElse(ns[..i + 1], tag1, tag2) == TaggedElse(ns[..i], tag1, tag2) + [ns[i]]
    ensures !(HasLang(ns[i], tag2) && !HasLang(ns[i], tag1)) ==>
              TaggedElse(ns[..i + 1], tag1, tag2) == TaggedElse(ns[..i], tag1, tag2)
  {
    assert ns[..i + 1][..i] == ns[..i];
    assert TaggedElse(ns[..i], tag1, tag2) + [] == TaggedElse(ns[..i], tag1, tag2);
  }

  /** The objects a direct property keeps under its (optional) filter. */
  function Filtered(ns: seq<Node>, filter: Option<string>): (kept: seq<Node>)
  {
    if FilterActive(filter) then Tagged(ns, filter.value) else ns
  }

  /** One more object extends the filtered values by its string form exactly
      when the filter keeps it. */
  lemma FilteredPrefix(ns: seq<Node>, i: nat, filter: Option<string>)
    requires i < |ns|
    ensures Strs(Filtered(ns[..i + 1], filter))
            == Strs(Filtered(ns[..i], filter))
               + (if !FilterActive(filter) || HasLang(ns[i], filter.value) then [Str(ns[i])] else [])
  {
    assert ns[..i + 1] == ns[..i] + [ns[i]];
    StrsSnoc(ns[..i], ns[i]);
    if FilterActive(filter) {
      TaggedPrefix(ns, i, filter.value);
      StrsSnoc(Tagged(ns[..i], filter.value), ns[i]);
      assert Strs(Filtered(ns[..i], filter)) + [] == Strs(Filtered(ns[..i], filter));
    }
  }

  lemma {:induction false} TaggedMembership(ns: seq<Node>, tag: string, n: Node)
    ensures n in Tagged(ns, tag) <==> n in ns && HasLang(n, tag)
  {
    if ns != [] {
      TaggedMembership(ns[..|ns| - 1], tag, n);
      assert ns == ns[..|ns| - 1] + [ns[|ns| - 1]];
    }
  }

  lemma {:induction false} TaggedElseMembership(ns: seq<Node>, tag1: string, tag2: string, n: Node)
    ensures n in TaggedElse(ns, tag1, tag2) <==> n in ns && HasLang(n, tag2) && !HasLang(n, tag1)
  {
    if ns != [] {
      TaggedElseMembership(ns[..|ns| - 1], tag1, tag2, n);
      assert ns == ns[..|ns| - 1] + [ns[|ns| - 1]];
    }
  }

  /** With two different tags the `elif` branch collects exactly the nodes
      tagged with the second one. */
  lemma {:induction false} TaggedElseIsTagged(ns: seq<Node>, tag1: string, tag2: string)
    requires tag1 != tag2
    ensures TaggedElse(ns, tag1, tag2) == Tagged(ns, tag2)
  {
    if ns != [] {
      TaggedElseIsTagged(ns[..|ns| - 1], tag1, tag2);
    }
  }

  /** Every value kept under a language filter is the string form of an
      object of the property carrying exactly that tag. */
  lemma TaggedStrsWitness(g: Graph, s: Node, p: string, tag: string)
    ensures forall v :: v in Strs(Tagged(Objects(g, s, p), tag)) ==>
              exists o :: Has(g, s, p, o) && HasLang(o, tag) && Str(o) == v
  {
    var tagged := Tagged(Objects(g, s, p), tag);
    forall v | v in Strs(tagged)
      ensures exists o :: Has(g, s, p, o) && HasLang(o, tag) && Str(o) == v
    {
      var k :| 0 <= k < |Strs(tagged)| && Strs(tagged)[k] == v;
      StrsAt(tagged, k);
      TaggedMembership(Objects(g, s, p), tag, tagged[k]);
      ObjectsMembership(g, s, p, tagged[k]);
    }
  }

  /** The two-way split: a node goes to the first field iff it is tagged
      exactly `tag1`, to the second iff tagged exactly `tag2`; no node goes to
      both, and an untagged literal, an IRI or a blank node goes to neither. */
  lemma LangSplitPartition(ns: seq<Node>, tag1: string, tag2: string, n: Node)
    requires tag1 != tag2
    ensures n in Tagged(ns, tag1) <==> n in ns && HasLang(n, tag1)
    ensures n in TaggedElse(ns, tag1, tag2) <==> n in ns && HasLang(n, tag2)
    ensures !(n in Tagged(ns, tag1) && n in TaggedElse(ns, tag1, tag2))
    ensures (!n.Literal? || n.lang.None?) ==> n !in Tagged(ns, tag1) && n !in TaggedElse(ns, tag1, tag2)
  {
    TaggedMembership(ns, tag1, n);
    TaggedElseMembership(ns, tag1, tag2, n);
  }

  // ---------------------------------------------------------------------
  // Paths through intermediate nodes

  /** What is read from one intermediate node: the objects of one predicate,
      or the objects of `next` on every object of `pred` (one more hop). */
  datatype SubPath = Hop(pred: string) | Hop2(pred: string, next: string)

  /** The objects of `p` on every node of `ns`, concatenated in node order. */
  function HopNodes(g: Graph, ns: seq<Node>, p: string): (reached: seq<Node>)
  {
    if ns == [] then []
    else HopNodes(g, ns[..|ns| - 1], p) + Objects(g, ns[|ns| - 1], p)
  }

  lemma HopNodesPrefix(g: Graph, ns: seq<Node>, i: nat, p: string)
    requires i < |ns|
    ensures HopNodes(g, ns[..i + 1], p) == HopNodes(g, ns[..i], p) + Objects(g, ns[i], p)
  {
    assert ns[..i + 1][..i] == ns[..i];
  }

  function PathNodes(g: Graph, n: Node, path: SubPath): (reached: seq<Node>)
  {
    match path
    case Hop(p) => Objects(g, n, p)
    case Hop2(p, q) => HopNodes(g, Objects(g, n, p), q)
  }

  /** The nodes reached along `path` from every intermediate node of `ns`,
      concatenated in intermediate-node order. */
  function NestedNodes(g: Graph, ns: seq<Node>, path: SubPath): (reached: seq<Node>)
  {
    if ns == [] then []
    else NestedNodes(g, ns[..|ns| - 1], path) + PathNodes(g, ns[|ns| - 1], path)
  }

  lemma NestedNodesPrefix(g: Graph, ns: seq<Node>, i: nat, path: SubPath)
    requires i < |ns|
    ensures NestedNodes(g, ns[..i + 1], path) == NestedNodes(g, ns[..i], path) + PathNodes(g, ns[i], path)
  {
    assert ns[..i + 1][..i] == ns[..i];
  }

  lemma {:induction false} HopNodesMembership(g: Graph, ns: seq<Node>, p: string, x: Node)
    ensures x in HopNodes(g, ns, p) <==> exists m :: m in ns && Has(g, m, p, x)
  {
    if ns != [] {
      var init, last := ns[..|ns| - 1], ns[|ns| - 1];
      HopNodesMembership(g, init, p, x);
      ObjectsMembership(g, last, p, x);
      assert ns == init + [last];
    }
  }

  /** A nested field gathers exactly the nodes reachable along its path. */
  lemma NestedNodesMembership(g: Graph, ns: seq<Node>, path: SubPath, x: Node)
    ensures path.Hop? ==>
      (x in NestedNodes(g, ns, path) <==> exists m :: m in ns && Has(g, m, path.pred, x))
    ensures path.Hop2? ==>
      (x in NestedNodes(g, ns, path) <==>
         exists m, k :: m in ns && Has(g, m, path.pred, k) && Has(g, k, path.next, x))
  {
    if path.Hop? {
      NestedHopMembership(g, ns, path, x);
    } else {
      NestedHop2Membership(g, ns, path, x);
    }
  }

  lemma {:induction false} NestedHopMembership(g: Graph, ns: seq<Node>, path: SubPath, x: Node)
    requires path.Hop?
    ensures x in NestedNodes(g, ns, path) <==> exists m :: m in ns && Has(g, m, path.pred, x)
  {
    if ns != [] {
      var init, last := ns[..|ns| - 1], ns[|ns| - 1];
      NestedHopMembership(g, init, path, x);
      PathNodesMembership(g, last, path, x);
      assert NestedNodes(g, ns, path) == NestedNodes(g, init, path) + PathNodes(g, last, path);
      if x in NestedNodes(g, init, path) {
        var m :| m in init && Has(g, m, path.pred, x);
        MemberInit(ns, m);
      }
      MemberInit(ns, last);
      if exists m :: m in ns && Has(g, m, path.pred, x) {
        var m :| m in ns && Has(g, m, path.pred, x);
        MemberInit(ns, m);
      }
    }
  }

  lemma {:induction false} NestedHop2Membership(g: Graph, ns: seq<Node>, path: SubPath, x: Node)
    requires path.Hop2?
    ensures x in NestedNodes(g, ns, path) <==>
              exists m, k :: m in ns && Has(g, m, path.pred, k) && Has(g, k, path.next, x)
  {
    if ns != [] {
      var init, last := ns[..|ns| - 1], ns[|ns| - 1];
      var p, q := path.pred, path.next;
      NestedHop2Membership(g, init, path, x);
      PathNodesMembership(g, last, path, x);
      assert NestedNodes(g, ns, path) == NestedNodes(g, init, path) + PathNodes(g, last, path);
      if x in NestedNodes(g, init, path) {
        var m, k :| m in init && Has(g, m, p, k) && Has(g, k, q, x);
        MemberInit(ns, m);
      }
      if x in PathNodes(g, last, path) {
        var k :| Has(g, last, p, k) && Has(g, k, q, x);
        MemberInit(ns, last);
      }
      if exists m, k :: m in ns && Has(g, m, p, k) && Has(g, k, q, x) {
        var m, k :| m in ns && Has(g, m, p, k) && Has(g, k, q, x);
        MemberInit(ns, m);
        if m != last {
          assert x in NestedNodes(g, init, path);
        }
      }
    }
  }

  /** The nodes one intermediate node leads to along a path. */
  lemma PathNodesMembership(g: Graph, m: Node, path: SubPath, x: Node)
    ensures path.Hop? ==> (x in PathNodes(g, m, path) <==> Has(g, m, path.pred, x))
    ensures path.Hop2? ==>
      (x in PathNodes(g, m, path) <==> exists k :: Has(g, m, path.pred, k) && Has(g, k, path.next, x))
  {
    match path
    case Hop(p) =>
      ObjectsMembership(g, m, p, x);
    case Hop2(p, q) =>
      HopNodesMembership(g, Objects(g, m, p), q, x);
      if x in PathNodes(g, m, path) {
        var k :| k in Objects(g, m, p) && Has(g, k, q, x);
        ObjectsMembership(g, m, p, k);
      }
      forall k | Has(g, m, p, k) && Has(g, k, q, x)
        ensures x in PathNodes(g, m, path)
      {
        ObjectsMembership(g, m, p, k);
      }
  }

  /** A non-empty run of intermediates: the earlier ones, then the last. */
  lemma NestedNodesSnoc(g: Graph, ns: seq<Node>, path: SubPath)
    requires ns != []
    ensures NestedNodes(g, ns, path) == NestedNodes(g, ns[..|ns| - 1], path) + PathNodes(g, ns[|ns| - 1], path)
  {
  }

  /** More intermediate nodes only add values at the end of the field. */
  lemma {:induction false} NestedNodesAppend(g: Graph, a: seq<Node>, b: seq<Node>, path: SubPath)
    ensures NestedNodes(g, a + b, path) == NestedNodes(g, a, path) + NestedNodes(g, b, path)
  {
    if b == [] {
      assert a + b == a;
    } else {
      var init, last := b[..|b| - 1], b[|b| - 1];
      var ab := a + b;
      assert ab[..|ab| - 1] == a + init && ab[|ab| - 1] == last;
      NestedNodesAppend(g, a, init, path);
      NestedNodesSnoc(g, ab, path);
      NestedNodesSnoc(g, b, path);
      Assoc(NestedNodes(g, a, path), NestedNodes(g, init, path), PathNodes(g, last, path));
    }
  }

  // ---------------------------------------------------------------------
  // The Item -> Package join

  /** Candidate k has type t and no earlier candidate has. */
  predicate FirstTyped(g: Graph, cands: seq<Node>, k: int, t: Node)
  {
    0 <= k < |cands| && Has(g, cands[k], RdfType, t) && forall i :: 0 <= i < k ==> !Has(g, cands[i], RdfType, t)
  }

  /** The first candidate typed `t` in the store, if any. */
  function FirstOfType(g: Graph, cands: seq<Node>, t: Node): (r: Option<Node>)
  {
    if cands == [] then None
    else if Has(g, cands[0], RdfType, t) then Some(cands[0])
    else FirstOfType(g, cands[1..], t)
  }

  /** The join takes the earliest candidate that has the type, and finds
      nothing only when no candidate has it. */
  lemma {:induction false} FirstOfTypeSpec(g: Graph, cands: seq<Node>, t: Node)
    ensures FirstOfType(g, cands, t).None? <==>
              forall k :: 0 <= k < |cands| ==> !Has(g, cands[k], RdfType, t)
    ensures FirstOfType(g, cands, t).Some? ==>
              exists k :: 0 <= k < |cands| && cands[k] == FirstOfType(g, cands, t).value
                && Has(g, cands[k], RdfType, t)
                && forall j :: 0 <= j < k ==> !Has(g, cands[j], RdfType, t)
  {
    if cands != [] && !Has(g, cands[0], RdfType, t) {
      FirstOfTypeSpec(g, cands[1..], t);
      if FirstOfType(g, cands, t).Some? {
        var k :| 0 <= k < |cands[1..]| && cands[1..][k] == FirstOfType(g, cands, t).value
                 && Has(g, cands[1..][k], RdfType, t)
                 && forall j :: 0 <= j < k ==> !Has(g, cands[1..][j], RdfType, t);
        assert cands[k + 1] == FirstOfType(g, cands, t).value;
        forall j | 0 <= j < k + 1
          ensures !Has(g, cands[j], RdfType, t)
        {
          if j > 0 { assert cands[j] == cands[1..][j - 1]; }
        }
      } else {
        forall k | 0 <= k < |cands|
          ensures !Has(g, cands[k], RdfType, t)
        {
          if k > 0 { assert cands[k] == cands[1..][k - 1]; }
        }
      }
    }
  }

  // ---------------------------------------------------------------------
  // Columns, entries and rows

  /** One output field: its name and the path read from the intermediate node. */
  datatype Part = Part(name: string, path: SubPath)

  datatype Column =
      /** objects(s, pred), optionally language-filtered */
    | Direct(name: string, pred: string, filter: Option<string>)
      /** objects(s, pred) split by an if/elif on the language tag */
    | LangPair(pred: string, tag1: string, name1: string, tag2: string, name2: string)
      /** every object of pred is an intermediate node; one field per part */
    | Nested(pred: string, parts: seq<Part>)
      /** the first object of pred typed `target`, or "" */
    | TypedJoin(name: string, pred: string, target: Node)

  /** A dictionary entry of a row; a row keeps its keys in insertion order. */
  datatype Entry = Entry(key: string, value: string)

  type Row = seq<Entry>

  function Keys(row: Row): (ks: seq<string>)
    ensures |ks| == |row|
  {
    if row == [] then [] else Keys(row[..|row| - 1]) + [row[|row| - 1].key]
  }

  lemma {:induction false} KeysAppend(a: Row, b: Row)
    ensures Keys(a + b) == Keys(a) + Keys(b)
  {
    if b == [] {
      assert a + b == a;
    } else {
      KeysAppend(a, b[..|b| - 1]);
      assert (a + b)[..|a + b| - 1] == a + b[..|b| - 1];
    }
  }

  /** The value of a nested field: the joined string forms of the nodes
      reached from all intermediate nodes. */
  function NestedEntries(g: Graph, nodes: seq<Node>, parts: seq<Part>): (es: Row)
    ensures |es| == |parts|
  {
    if parts == [] then []
    else
      var last := parts[|parts| - 1];
      NestedEntries(g, nodes, parts[..|parts| - 1])
        + [Entry(last.name, Join(Strs(NestedNodes(g, nodes, last.path))))]
  }

  lemma NestedEntriesPrefix(g: Graph, nodes: seq<Node>, parts: seq<Part>, k: nat)
    requires k < |parts|
    ensures NestedEntries(g, nodes, parts[..k + 1])
              == NestedEntries(g, nodes, parts[..k]) + [Entry(parts[k].name, Join(Strs(NestedNodes(g, nodes, parts[k].path))))]
  {
    assert parts[..k + 1][..k] == parts[..k];
  }

  /** The entries a column adds to the row of subject s. */
  function ColumnEntries(g: Graph, s: Node, c: Column): (entries: Row)
  {
    match c
    case Direct(name, p, filter) =>
      [Entry(name, Join(Strs(Filtered(Objects(g, s, p), filter))))]
    case LangPair(p, tag1, name1, tag2, name2) =>
      var os := Objects(g, s, p);
      [Entry(name1, Join(Strs(Tagged(os, tag1)))), Entry(name2, Join(Strs(TaggedElse(os, tag1, tag2))))]
    case Nested(p, parts) =>
      NestedEntries(g, Objects(g, s, p), parts)
    case TypedJoin(name, p, target) =>
      var found := FirstOfType(g, Objects(g, s, p), target);
      [Entry(name, if found.Some? then Str(found.value) else "")]
  }

  /** The entries of a whole layout, column after column. */
  function LayoutEntries(g: Graph, s: Node, cols: seq<Column>): (entries: Row)
  {
    if cols == [] then []
    else LayoutEntries(g, s, cols[..|cols| - 1]) + ColumnEntries(g, s, cols[|cols| - 1])
  }

  /** The row of subject s: its key field first, then the layout's fields. */
  function Record(g: Graph, s: Node, uriKey: string, cols: seq<Column>): (row: Row)
  {
    [Entry(uriKey, Str(s))] + LayoutEntries(g, s, cols)
  }

  // The key schema of a layout does not depend on the store or the subject.

  function PartKeys(parts: seq<Part>): (ks: seq<string>)
    ensures |ks| == |parts|
  {
    if parts == [] then [] else PartKeys(parts[..|parts| - 1]) + [parts[|parts| - 1].name]
  }

  function ColumnKeys(c: Column): (keys: seq<string>)
  {
    match c
    case Direct(name, _, _) => [name]
    case LangPair(_, _, name1, _, name2) => [name1, name2]
    case Nested(_, parts) => PartKeys(parts)
    case TypedJoin(name, _, _) => [name]
  }

  function LayoutKeys(cols: seq<Column>): (keys: seq<string>)
  {
    if cols == [] then [] else LayoutKeys(cols[..|cols| - 1]) + ColumnKeys(cols[|cols| - 1])
  }

  lemma {:induction false} NestedEntriesKeys(g: Graph, nodes: seq<Node>, parts: seq<Part>)
    ensures Keys(NestedEntries(g, nodes, parts)) == PartKeys(parts)
  {
    if parts != [] {
      var last := parts[|parts| - 1];
      NestedEntriesKeys(g, nodes, parts[..|parts| - 1]);
      KeysAppend(NestedEntries(g, nodes, parts[..|parts| - 1]),
                 [Entry(last.name, Join(Strs(NestedNodes(g, nodes, last.path))))]);
    }
  }

  lemma ColumnEntriesKeys(g: Graph, s: Node, c: Column)
    ensures Keys(ColumnEntries(g, s, c)) == ColumnKeys(c)
  {
    match c
    case Direct(_, _, _) =>
    case LangPair(_, _, _, _, _) =>
      assert ColumnEntries(g, s, c)[..1] == [ColumnEntries(g, s, c)[0]];
    case Nested(p, parts) =>
      NestedEntriesKeys(g, Objects(g, s, p), parts);
    case TypedJoin(_, _, _) =>
  }

  lemma {:induction false} LayoutEntriesKeys(g: Graph, s: Node, cols: seq<Column>)
    ensures Keys(LayoutEntries(g, s, cols)) == LayoutKeys(cols)
  {
    if cols != [] {
      LayoutEntriesKeys(g, s, cols[..|cols| - 1]);
      ColumnEntriesKeys(g, s, cols[|cols| - 1]);
      KeysAppend(LayoutEntries(g, s, cols[..|cols| - 1]), ColumnEntries(g, s, cols[|cols| - 1]));
    }
  }

  /** Schema uniformity: every row built from a layout has the same keys in the
      same order, whatever the store and the subject; the first entry is the
      key field holding str(subject). */
  lemma RecordSchema(g: Graph, s: Node, uriKey: string, cols: seq<Column>)
    ensures Keys(Record(g, s, uriKey, cols)) == [uriKey] + LayoutKeys(cols)
    ensures Record(g, s, uriKey, cols)[0] == Entry(uriKey, Str(s))
  {
    LayoutEntriesKeys(g, s, cols);
    KeysAppend([Entry(uriKey, Str(s))], LayoutEntries(g, s, cols));
  }


  lemma {:induction false} LayoutEntriesAppend(g: Graph, s: Node, a: seq<Column>, b: seq<Column>)
    ensures LayoutEntries(g, s, a + b) == LayoutEntries(g, s, a) + LayoutEntries(g, s, b)
  {
    if b == [] {
      assert a + b == a;
    } else {
      var init, last := b[..|b| - 1], b[|b| - 1];
      LayoutEntriesAppend(g, s, a, init);
      AppendInit(a, b);
      Assoc(LayoutEntries(g, s, a), LayoutEntries(g, s, init), ColumnEntries(g, s, last));
    }
  }

  /** One entry of a property table: field name and property IRI. */
  datatype Property = Property(name: string, pred: string)

  /** The columns of a property table whose language filter is None. */
  function Directs(props: seq<Property>): (cols: seq<Column>)
    ensures |cols| == |props|
    ensures forall j :: 0 <= j < |props| ==> cols[j] == Direct(props[j].name, props[j].pred, None)
  {
    seq(|props|, j requires 0 <= j < |props| => Direct(props[j].name, props[j].pred, None))
  }

  /** Category columns: each category property leads to nodes whose `labelPred`
      objects fill the field of the same name. */
  function Labelled(cats: seq<Property>, labelPred: string): (cols: seq<Column>)
    ensures |cols| == |cats|
    ensures forall j :: 0 <= j < |cats| ==> cols[j] == Nested(cats[j].pred, [Part(cats[j].name, Hop(labelPred))])
  {
    seq(|cats|, j requires 0 <= j < |cats| => Nested(cats[j].pred, [Part(cats[j].name, Hop(labelPred))]))
  }

  /** Every column is a nested column with one part, reading `labelPred` from
      each node its property leads to. */
  predicate LabelColumns(cols: seq<Column>, labelPred: string)
  {
    forall j :: 0 <= j < |cols| ==>
      cols[j].Nested? && |cols[j].parts| == 1 && cols[j].parts[0].path == Hop(labelPred)
  }

  /** A property table: every column is a direct property read without a
      language filter. */
  predicate Unfiltered(cols: seq<Column>)
  {
    forall j :: 0 <= j < |cols| ==> cols[j].Direct? && cols[j].filter.None?
  }

  /** An unfiltered direct field holds every object of its property, joined in
      store order; no object gives "", and when no string form contains the
      separator, splitting the cell gives the string forms back. */
  lemma DirectField(g: Graph, s: Node, c: Column)
    requires c.Direct? && c.filter.None?
    ensures ColumnEntries(g, s, c) == [Entry(c.name, Join(Strs(Objects(g, s, c.pred))))]
    ensures Objects(g, s, c.pred) == [] ==> ColumnEntries(g, s, c)[0].value == ""
    ensures Objects(g, s, c.pred) != [] && (forall o :: o in Objects(g, s, c.pred) ==> Sep !in Str(o)) ==>
              Split(ColumnEntries(g, s, c)[0].value) == Strs(Objects(g, s, c.pred))
  {
    var os := Objects(g, s, c.pred);
    if os != [] && (forall o :: o in os ==> Sep !in Str(o)) {
      forall i | 0 <= i < |Strs(os)|
        ensures Sep !in Strs(os)[i]
      {
        StrsAt(os, i);
      }
      SplitJoin(Strs(os));
    }
  }

  /** Unfiltered direct columns put one entry per column, in column order. */
  lemma {:induction false} UnfilteredEntries(g: Graph, s: Node, cols: seq<Column>)
    requires Unfiltered(cols)
    ensures |LayoutEntries(g, s, cols)| == |cols|
    ensures forall j :: 0 <= j < |cols| ==>
              LayoutEntries(g, s, cols)[j] == Entry(cols[j].name, Join(Strs(Objects(g, s, cols[j].pred))))
  {
    if cols != [] {
      var init := cols[..|cols| - 1];
      var last := cols[|cols| - 1];
      assert Unfiltered(init);
      UnfilteredEntries(g, s, init);
      assert ColumnEntries(g, s, last) == [Entry(last.name, Join(Strs(Objects(g, s, last.pred))))];
      forall j | 0 <= j < |cols|
        ensures LayoutEntries(g, s, cols)[j] == Entry(cols[j].name, Join(Strs(Objects(g, s, cols[j].pred))))
      {
        if j < |init| {
          assert cols[j] == init[j];
        }
      }
    }
  }

  /** A property table puts one entry per property, in table order, each the
      joined string forms of that property's objects. */
  lemma DirectEntries(g: Graph, s: Node, props: seq<Property>)
    ensures |LayoutEntries(g, s, Directs(props))| == |props|
    ensures forall j :: 0 <= j < |props| ==>
              LayoutEntries(g, s, Directs(props))[j] == Entry(props[j].name, Join(Strs(Objects(g, s, props[j].pred))))
  {
    UnfilteredEntries(g, s, Directs(props));
  }

  /** One field of a property table's entries. */
  lemma DirectEntryAt(g: Graph, s: Node, props: seq<Property>, j: nat)
    requires j < |props|
    ensures |LayoutEntries(g, s, Directs(props))| == |props|
    ensures LayoutEntries(g, s, Directs(props))[j] == Entry(props[j].name, Join(Strs(Objects(g, s, props[j].pred))))
  {
    DirectEntries(g, s, props);
  }

  /** A row built from a layout `pre + post` is the row of `pre` followed by
      the entries of `post`. */
  lemma RecordSplit(g: Graph, s: Node, uriKey: string, pre: seq<Column>, post: seq<Column>)
    ensures Record(g, s, uriKey, pre + post) == Record(g, s, uriKey, pre) + LayoutEntries(g, s, post)
  {
    LayoutEntriesAppend(g, s, pre, post);
    Assoc([Entry(uriKey, Str(s))], LayoutEntries(g, s, pre), LayoutEntries(g, s, post));
  }

  /** The language pair of a column whose two tags differ: the first field
      holds the objects tagged exactly tag1, the second those tagged exactly
      tag2. */
  lemma LangPairField(g: Graph, s: Node, c: Column)
    requires c.LangPair? && c.tag1 != c.tag2
    ensures ColumnEntries(g, s, c)
              == [Entry(c.name1, Join(Strs(Tagged(Objects(g, s, c.pred), c.tag1)))),
                  Entry(c.name2, Join(Strs(Tagged(Objects(g, s, c.pred), c.tag2))))]
  {
    TaggedElseIsTagged(Objects(g, s, c.pred), c.tag1, c.tag2);
  }

  lemma LayoutEntriesCons(g: Graph, s: Node, c: Column, rest: seq<Column>)
    ensures LayoutEntries(g, s, [c] + rest) == ColumnEntries(g, s, c) + LayoutEntries(g, s, rest)
  {
    LayoutEntriesAppend(g, s, [c], rest);
    assert LayoutEntries(g, s, [c]) == ColumnEntries(g, s, c) by {
      Single(c);
    }
  }

  /** A nested column with a single part adds a single entry. */
  lemma SinglePartColumn(g: Graph, s: Node, p: string, part: Part)
    ensures ColumnEntries(g, s, Nested(p, [part]))
            == [Entry(part.name, Join(Strs(NestedNodes(g, Objects(g, s, p), part.path))))]
  {
    Single(part);
  }

  /** Category columns put one entry per category, in table order: the joined
      labels of every node the category property leads to. */
  lemma LabelledEntries(g: Graph, s: Node, cats: seq<Property>, labelPred: string)
    ensures |LayoutEntries(g, s, Labelled(cats, labelPred))| == |cats|
    ensures forall j :: 0 <= j < |cats| ==>
              LayoutEntries(g, s, Labelled(cats, labelPred))[j]
              == Entry(cats[j].name, Join(Strs(NestedNodes(g, Objects(g, s, cats[j].pred), Hop(labelPred)))))
  {
    LabelColumnsEntries(g, s, Labelled(cats, labelPred), labelPred);
  }

  /** The one entry of a single-part label column. */
  function LabelEntry(g: Graph, s: Node, c: Column, labelPred: string): (e: Entry)
    requires c.Nested? && |c.parts| == 1
  {
    Entry(c.parts[0].name, Join(Strs(NestedNodes(g, Objects(g, s, c.pred), Hop(labelPred)))))
  }

  /** Single-part label columns put one entry per column, in column order. */
  lemma {:induction false} LabelColumnsEntries(g: Graph, s: Node, cols: seq<Column>, labelPred: string)
    requires LabelColumns(cols, labelPred)
    ensures |LayoutEntries(g, s, cols)| == |cols|
    ensures forall j :: 0 <= j < |cols| ==> LayoutEntries(g, s, cols)[j] == LabelEntry(g, s, cols[j], labelPred)
  {
    if cols != [] {
      var init := cols[..|cols| - 1];
      var last := cols[|cols| - 1];
      assert LabelColumns(init, labelPred);
      LabelColumnsEntries(g, s, init, labelPred);
      var prev, here := LayoutEntries(g, s, init), ColumnEntries(g, s, last);
      assert here == [LabelEntry(g, s, last, labelPred)] by {
        Singleton(last.parts);
        SinglePartColumn(g, s, last.pred, last.parts[0]);
      }
      assert LayoutEntries(g, s, cols) == prev + here;
      forall j | 0 <= j < |cols|
        ensures LayoutEntries(g, s, cols)[j] == LabelEntry(g, s, cols[j], labelPred)
      {
        if j < |init| {
          assert cols[j] == init[j];
          assert (prev + here)[j] == prev[j];
        } else {
          assert (prev + here)[j] == here[0];
        }
      }
    }
  }

  /** Part k of a nested column fills the k-th of its entries. */
  lemma {:induction false} NestedEntriesAt(g: Graph, nodes: seq<Node>, parts: seq<Part>)
    ensures forall k :: 0 <= k < |parts| ==>
              NestedEntries(g, nodes, parts)[k] == Entry(parts[k].name, Join(Strs(NestedNodes(g, nodes, parts[k].path))))
  {
    if parts != [] {
      var init := parts[..|parts| - 1];
      NestedEntriesAt(g, nodes, init);
      forall k | 0 <= k < |parts|
        ensures NestedEntries(g, nodes, parts)[k] == Entry(parts[k].name, Join(Strs(NestedNodes(g, nodes, parts[k].path))))
      {
        if k < |init| {
          assert parts[k] == init[k];
          assert NestedEntries(g, nodes, parts)[k] == NestedEntries(g, nodes, init)[k];
        }
      }
    }
  }

  /** The join field: "" when no object of the column's property has the
      target type, otherwise str of the first object that has it. */
  lemma TypedJoinField(g: Graph, s: Node, c: Column)
    requires c.TypedJoin?
    ensures |ColumnEntries(g, s, c)| == 1 && ColumnEntries(g, s, c)[0].key == c.name
    ensures (forall k :: 0 <= k < |Objects(g, s, c.pred)| ==> !Has(g, Objects(g, s, c.pred)[k], RdfType, c.target)) ==>
              ColumnEntries(g, s, c)[0].value == ""
    ensures var os := Objects(g, s, c.pred);
            forall k :: FirstTyped(g, os, k, c.target) ==> ColumnEntries(g, s, c)[0].value == Str(os[k])
  {
    var os := Objects(g, s, c.pred);
    FirstOfTypeSpec(g, os, c.target);
    forall k | FirstTyped(g, os, k, c.target)
      ensures ColumnEntries(g, s, c)[0].value == Str(os[k])
    {
      var found := FirstOfType(g, os, c.target);
      var k' :| 0 <= k' < |os| && os[k'] == found.value && Has(g, os[k'], RdfType, c.target)
                && forall i :: 0 <= i < k' ==> !Has(g, os[i], RdfType, c.target);
      assert k' == k;
    }
  }

  /** Part k of a nested column: the joined string forms of the nodes reached
      along its path from every object of the column's property. */
  lemma NestedColumnAt(g: Graph, s: Node, c: Column, k: nat)
    requires c.Nested? && k < |c.parts|
    ensures ColumnEntries(g, s, c)[k]
            == Entry(c.parts[k].name, Join(Strs(NestedNodes(g, Objects(g, s, c.pred), c.parts[k].path))))
  {
    NestedEntriesAt(g, Objects(g, s, c.pred), c.parts);
  }

  /** A column whose property has no object on s contributes only empty
      fields. */
  lemma NoObjectsEmptyEntries(g: Graph, s: Node, c: Column)
    requires Objects(g, s, c.pred) == []
    ensures forall e :: e in ColumnEntries(g, s, c) ==> e.value == ""
  {
    match c
    case Direct(_, _, _) =>
    case LangPair(_, _, _, _, _) =>
    case Nested(p, parts) =>
      NestedEntriesAt(g, [], parts);
    case TypedJoin(_, _, _) =>
  }
}
