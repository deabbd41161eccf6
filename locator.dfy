/** The table locator `get_the_exactly_table`: of a document's tables, the first
    whose probe cell (row 1, column 0), once cleaned, equals the marker label. */
module Locator {
  import opened Results
  import opened Text

  /** A table of a document, as far as the mapping reads it: the text of the cell
      at (row, column). */
  datatype Table = Table(cell: (int, int) -> string)

  /** The marker literal exactly as the source spells it: the four characters
      U+00E5 U+00A7 U+201C U+00E5. */
  const Marker: string := "\U{E5}\U{A7}\U{201C}\U{E5}"

  const ProbeRow := 1
  const ProbeColumn := 0

  predicate IsMarked(t: Table) {
    CleanText(t.cell(ProbeRow, ProbeColumn)) == Marker
  }

  /** The index of the first marked table, if there is one. */
  function FirstMarked(tables: seq<Table>): (r: Option<nat>)
    ensures r.Some? ==> r.value < |tables|
  {
    if tables == [] then None
    else if IsMarked(tables[0]) then Some(0)
    else
      match FirstMarked(tables[1..])
      case None => None
      case Some(i) => Some(i + 1)
  }

  /** The index found is that of a marked table with no marked table before it,
      and none is found exactly when no table is marked. */
  lemma {:induction false} FirstMarkedIsFirst(tables: seq<Table>)
    ensures var r := FirstMarked(tables);
            && (r.Some? ==> r.value < |tables| && IsMarked(tables[r.value])
                            && forall j :: 0 <= j < r.value ==> !IsMarked(tables[j]))
            && (r.None? <==> forall j :: 0 <= j < |tables| ==> !IsMarked(tables[j]))
  {
    if tables != [] && !IsMarked(tables[0]) {
      var rest := tables[1..];
      FirstMarkedIsFirst(rest);
      assert forall j :: 0 < j < |tables| ==> tables[j] == rest[j - 1];
      match FirstMarked(rest)
      case None =>
      case Some(i) =>
        assert FirstMarked(tables) == Some(i + 1);
    }
  }

  /** `get_the_exactly_table(tables)`: a scan in order that returns the first
      marked table, or None when no table is marked. */
  method LocateTable(tables: seq<Table>) returns (found: Option<Table>)
    ensures match FirstMarked(tables)
            case None => found == None
            case Some(i) => found == Some(tables[i])
  {
    FirstMarkedIsFirst(tables);
    for i := 0 to |tables|
      invariant forall j :: 0 <= j < i ==> !IsMarked(tables[j])
    {
      var txt := tables[i].cell(ProbeRow, ProbeColumn);
      txt := CleanText(txt);
      if txt == Marker {
        return Some(tables[i]);
      }
    }
    return None;
  }

  /** The marker holds no whitespace, so it is its own clean text. */
  lemma MarkerIsClean()
    ensures CleanText(Marker) == Marker
  {
    assert !IsWhitespace(Marker[0]) && !IsWhitespace(Marker[1]);
    assert !IsWhitespace(Marker[2]) && !IsWhitespace(Marker[3]);
    RemoveWhitespaceOfClean(Marker);
  }

  /** Whitespace inserted anywhere into the probe cell neither makes nor breaks
      a match. */
  lemma MarkedDespiteWhitespace(t: Table, u: Table, i: nat, w: string)
    requires i <= |u.cell(ProbeRow, ProbeColumn)|
    requires forall k :: 0 <= k < |w| ==> IsWhitespace(w[k])
    requires var s := u.cell(ProbeRow, ProbeColumn);
             t.cell(ProbeRow, ProbeColumn) == s[..i] + w + s[i..]
    ensures IsMarked(t) <==> IsMarked(u)
  {
    var s := u.cell(ProbeRow, ProbeColumn);
    assert s == s[..i] + s[i..];
    RemoveWhitespaceAppend(s[..i], s[i..]);
    RemoveWhitespaceAppend(s[..i] + w, s[i..]);
    RemoveWhitespaceAppend(s[..i], w);
    RemoveWhitespaceAllGone(w);
    assert RemoveWhitespace(s[..i]) + [] == RemoveWhitespace(s[..i]);
  }

  lemma {:induction false} RemoveWhitespaceAllGone(s: string)
    requires forall i :: 0 <= i < |s| ==> IsWhitespace(s[i])
    ensures RemoveWhitespace(s) == []
  {
    if s != [] {
      assert forall i :: 0 <= i < |s[1..]| ==> s[1..][i] == s[i + 1];
      RemoveWhitespaceAllGone(s[1..]);
    }
  }
}
