/** The in-memory triple store the extractors read from.
    The merged graph is an ordered sequence of triples; "store order" is the
    order of that sequence. The three queries the extractors use
    (objects, subjects of a type, membership) are filters over it. */
module RdfGraph {

  datatype Option<T> = None | Some(value: T)

  /** A graph node: an IRI, a blank node with its store-local id, or a literal
      with its lexical form and an optional language tag. */
  datatype Node =
    | Iri(iri: string)
    | Blank(id: string)
    | Literal(lexical: string, lang: Option<string>)

  datatype Triple = Triple(subj: Node, pred: string, obj: Node)

  type Graph = seq<Triple>

  const RdfType := "http://www.w3.org/1999/02/22-rdf-syntax-ns#type"

  /** A graph is a set of triples: no triple occurs twice. */
  predicate Distinct(g: Graph)
  {
    forall i, j :: 0 <= i < j < |g| ==> g[i] != g[j]
  }

  predicate NoDuplicates(s: seq<Node>)
  {
    forall i, j :: 0 <= i < j < |s| ==> s[i] != s[j]
  }

  /** The string form of a node: the IRI text, the blank-node id, or the
      literal's lexical form (language tag dropped). */
  function Str(n: Node): (text: string)
  {
    match n
    case Iri(i) => i
    case Blank(b) => b
    case Literal(lex, _) => lex
  }

  /** objects(s, p): every o with (s, p, o) in the store, in store order. */
  function Objects(g: Graph, s: Node, p: string): (os: seq<Node>)
    ensures |os| <= |g|
  {
    if g == [] then []
    else
      var t := g[|g| - 1];
      Objects(g[..|g| - 1], s, p) + (if t.subj == s && t.pred == p then [t.obj] else [])
  }

  /** subjects(rdf:type, T): every s with (s, rdf:type, T) in the store, in store order. */
  function SubjectsOfType(g: Graph, t: Node): (ss: seq<Node>)
    ensures |ss| <= |g|
  {
    if g == [] then []
    else
      var last := g[|g| - 1];
      SubjectsOfType(g[..|g| - 1], t) + (if last.pred == RdfType && last.obj == t then [last.subj] else [])
  }

  /** (s, p, o) in graph */
  predicate Has(g: Graph, s: Node, p: string, o: Node)
  {
    Triple(s, p, o) in g
  }

  lemma {:induction false} ObjectsMembership(g: Graph, s: Node, p: string, o: Node)
    ensures o in Objects(g, s, p) <==> Has(g, s, p, o)
  {
    if g != [] {
      var init := g[..|g| - 1];
      ObjectsMembership(init, s, p, o);
      assert g == init + [g[|g| - 1]];
    }
  }

  lemma {:induction false} SubjectsOfTypeMembership(g: Graph, t: Node, x: Node)
    ensures x in SubjectsOfType(g, t) <==> Has(g, x, RdfType, t)
  {
    if g != [] {
      var init := g[..|g| - 1];
      SubjectsOfTypeMembership(init, t, x);
      assert g == init + [g[|g| - 1]];
    }
  }

  /** Store order: the objects found in a concatenated store are those of the
      first part followed by those of the second. */
  lemma {:induction false} ObjectsAppend(g1: Graph, g2: Graph, s: Node, p: string)
    ensures Objects(g1 + g2, s, p) == Objects(g1, s, p) + Objects(g2, s, p)
  {
    if g2 == [] {
      assert g1 + g2 == g1;
    } else {
      var init := g2[..|g2| - 1];
      ObjectsAppend(g1, init, s, p);
      assert (g1 + g2)[..|g1 + g2| - 1] == g1 + init;
    }
  }

  lemma {:induction false} SubjectsOfTypeAppend(g1: Graph, g2: Graph, t: Node)
    ensures SubjectsOfType(g1 + g2, t) == SubjectsOfType(g1, t) + SubjectsOfType(g2, t)
  {
    if g2 == [] {
      assert g1 + g2 == g1;
    } else {
      var init := g2[..|g2| - 1];
      SubjectsOfTypeAppend(g1, init, t);
      assert (g1 + g2)[..|g1 + g2| - 1] == g1 + init;
    }
  }

  /** In a graph without repeated triples, objects(s, p) repeats no node. */
  lemma {:induction false} ObjectsNoDuplicates(g: Graph, s: Node, p: string)
    requires Distinct(g)
    ensures NoDuplicates(Objects(g, s, p))
  {
    if g != [] {
      var init := g[..|g| - 1];
      var t := g[|g| - 1];
      assert Distinct(init);
      ObjectsNoDuplicates(init, s, p);
      if t.subj == s && t.pred == p {
        var os := Objects(init, s, p);
        if t.obj in os {
          ObjectsMembership(init, s, p, t.obj);
          assert false;
        }
      }
    }
  }

  /** In a graph without repeated triples, subjects of a type are listed once each. */
  lemma {:induction false} SubjectsOfTypeNoDuplicates(g: Graph, t: Node)
    requires Distinct(g)
    ensures NoDuplicates(SubjectsOfType(g, t))
  {
    if g != [] {
      var init := g[..|g| - 1];
      var last := g[|g| - 1];
      assert Distinct(init);
      SubjectsOfTypeNoDuplicates(init, t);
      if last.pred == RdfType && last.obj == t {
        if last.subj in SubjectsOfType(init, t) {
          SubjectsOfTypeMembership(init, t, last.subj);
          assert false;
        }
      }
    }
  }
}
