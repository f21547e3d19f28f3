/** Multi-valued cells: every field of a row is one string in which the values
    found for that field are joined with the separator '|' (Python's
    "|".join), and a field with no values is the empty string. */
module Multivalue {

  const Sep: char := '|'

  /** "|".join(vs) */
  function Join(vs: seq<string>): (r: string)
    ensures vs == [] ==> r == ""
    ensures |vs| == 1 ==> r == vs[0]
  {
    if vs == [] then ""
    else if |vs| == 1 then vs[0]
    else vs[0] + [Sep] + Join(vs[1..])
  }

  /** s.split("|"): the pieces between separators; "" splits into [""]. */
  function Split(s: string): (parts: seq<string>)
    ensures |parts| >= 1
    decreases |s|
  {
    if s == [] then [""]
    else
      var rest := Split(s[1..]);
      if s[0] == Sep then [""] + rest
      else [[s[0]] + rest[0]] + rest[1..]
  }

  /** Joining two non-empty runs of values puts one separator between them. */
  lemma {:induction false} JoinConcat(a: seq<string>, b: seq<string>)
    requires a != [] && b != []
    ensures Join(a + b) == Join(a) + [Sep] + Join(b)
  {
    if |a| == 1 {
      assert (a + b)[1..] == b;
    } else {
      JoinConcat(a[1..], b);
      assert (a + b)[1..] == a[1..] + b;
    }
  }

  lemma {:induction false} SplitPlain(a: string)
    requires Sep !in a
    ensures Split(a) == [a]
  {
    if a != [] {
      assert Sep !in a[1..];
      SplitPlain(a[1..]);
      assert [a[0]] + a[1..] == a;
    }
  }

  lemma {:induction false} SplitAfterPiece(a: string, b: string)
    requires Sep !in a
    ensures Split(a + [Sep] + b) == [a] + Split(b)
    decreases |a|
  {
    if a == [] {
      assert a + [Sep] + b == [Sep] + b;
      assert ([Sep] + b)[1..] == b;
    } else {
      var ab := a + [Sep] + b;
      assert ab[0] == a[0] != Sep;
      assert ab[1..] == a[1..] + [Sep] + b;
      SplitAfterPiece(a[1..], b);
      assert [a[0]] + a[1..] == a;
    }
  }

  /** Splitting a joined cell gives the values back, provided there is at least
      one value and no value itself contains the separator. */
  lemma {:induction false} SplitJoin(vs: seq<string>)
    requires vs != []
    requires forall i :: 0 <= i < |vs| ==> Sep !in vs[i]
    ensures Split(Join(vs)) == vs
  {
    if |vs| == 1 {
      SplitPlain(vs[0]);
    } else {
      SplitAfterPiece(vs[0], Join(vs[1..]));
      SplitJoin(vs[1..]);
    }
  }

  /** Known limitation of the encoding: a value containing the separator cannot
      be told apart from two values. */
  lemma JoinAmbiguousOnSeparator(a: string, b: string)
    ensures Join([a + [Sep] + b]) == Join([a, b])
  {
    assert [a, b][1..] == [b];
  }

  /** Known limitation of the encoding: no value and one empty value give the
      same cell. */
  lemma JoinAmbiguousOnEmpty()
    ensures Join([]) == Join([""])
  {
  }
}
