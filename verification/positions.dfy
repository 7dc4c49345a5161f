/** The `Position(row, col)` record: an immutable board coordinate, equal by value. */
module Positions {
  import opened Wrappers
  import opened Decimal

  /** No range is enforced here; whether a position is on the board is the puzzle's concern. */
  datatype Position = Position(row: int, col: int)

  /** The record's generated `equals`. */
  function Equals(p: Position, q: Position): (r: bool)
    ensures r <==> p.row == q.row && p.col == q.col
  {
    p == q
  }

  /** The record's `toString`, the format "(%d, %d)". */
  function ToString(p: Position): (s: string)
    ensures 6 <= |s| && s[0] == '(' && s[|s| - 1] == ')'
  {
    "(" + IntToString(p.row) + ", " + IntToString(p.col) + ")"
  }

  /** The index of the first `c` in `s`, if any. */
  function IndexOf(s: string, c: char): (r: Option<nat>)
    ensures r.Some? ==> r.value < |s| && s[r.value] == c
    ensures r.Some? ==> forall k :: 0 <= k < r.value ==> s[k] != c
    ensures r.None? ==> forall k :: 0 <= k < |s| ==> s[k] != c
  {
    if s == [] then None
    else if s[0] == c then Some(0)
    else match IndexOf(s[1..], c)
      case Some(k) => Some(k + 1)
      case None => None
  }

  /** Reads the row between "(" and ", " and the column between ", " and ")". */
  function Parse(s: string): Option<Position> {
    if |s| < 2 || s[0] != '(' || s[|s| - 1] != ')' then None
    else
      var inner := s[1..|s| - 1];
      match IndexOf(inner, ',')
      case None => None
      case Some(k) =>
        if k + 2 <= |inner| && inner[k + 1] == ' ' then
          match (ParseInt(inner[..k]), ParseInt(inner[k + 2..]))
          case (Some(row), Some(col)) => Some(Position(row, col))
          case _ => None
        else None
  }

  /** The text of a position gives back its row and its column. */
  lemma ParseToString(p: Position)
    ensures Parse(ToString(p)) == Some(p)
  {
    var rowText, colText := IntToString(p.row), IntToString(p.col);
    var s := ToString(p);
    var inner := s[1..|s| - 1];
    assert inner == rowText + ", " + colText;
    var k := |rowText|;
    CommaAfter(rowText, colText);
    assert inner[..k] == rowText;
    assert inner[k + 2..] == colText;
    ParseIntToString(p.row);
    ParseIntToString(p.col);
  }

  /** The first comma of "row, col" is the one after the row's digits. */
  lemma CommaAfter(rowText: string, colText: string)
    requires forall j :: 0 <= j < |rowText| ==> rowText[j] != ','
    ensures IndexOf(rowText + ", " + colText, ',') == Some(|rowText|)
  {
    var t := rowText + ", " + colText;
    assert t[|rowText|] == ',';
    match IndexOf(t, ',')
    case None =>
      assert false;
    case Some(found) =>
      assert found == |rowText| by {
        assert forall j :: 0 <= j < |rowText| ==> t[j] == rowText[j];
      }
  }

  /** Distinct positions have distinct texts. */
  lemma ToStringInjective(p: Position, q: Position)
    ensures ToString(p) == ToString(q) <==> p == q
  {
    if ToString(p) == ToString(q) {
      ParseToString(p);
      ParseToString(q);
    }
  }

  /** The example of the record's test: the origin reads "(0, 0)". */
  lemma OriginText()
    ensures ToString(Position(0, 0)) == "(0, 0)"
  {
    assert IntToString(0) == "0";
  }
}
