/** The text inside an activity-log cursor (lib/activity-log.ts); its base64url
    wrapping (section 5 of RFC 4648) is taken as a bijection. */
module ActivityCursorText {
  import opened ActivityPaging
  import opened Options
  import Decimal

  function Encode(cursor: Cursor): string {
    Decimal.Join([Decimal.Text(cursor.occurredAtMs), Decimal.Text(Rank(cursor.source)), Decimal.Text(cursor.id)], '.')
  }

  predicate IsNumber(s: string, maxDigits: nat) {
    1 <= |s| <= maxDigits && forall i :: 0 <= i < |s| ==> Decimal.IsDigit(s[i])
  }

  function SourceOfRank(rank: nat): Option<Source> {
    if rank == 1 then Some(Audit) else if rank == 2 then Some(System) else if rank == 3 then Some(Group) else None
  }

  /** Three numbers between dots, at most 15, 2 and 12 digits long, the second a table's rank; anything else is refused. */
  function Decode(raw: string): Option<Cursor> {
    var parts := Decimal.Split(raw, '.');
    if |parts| != 3 || !IsNumber(parts[0], 15) || !IsNumber(parts[1], 2) || !IsNumber(parts[2], 12) then None
    else match SourceOfRank(Decimal.Value(parts[1]))
      case None => None
      case Some(source) => Some(Cursor(Decimal.Value(parts[0]), source, Decimal.Value(parts[2])))
  }

  lemma EncodingSplits(cursor: Cursor)
    ensures Decimal.Split(Encode(cursor), '.')
            == [Decimal.Text(cursor.occurredAtMs), Decimal.Text(Rank(cursor.source)), Decimal.Text(cursor.id)]
  {
    Decimal.SplitOfJoin([Decimal.Text(cursor.occurredAtMs), Decimal.Text(Rank(cursor.source)), Decimal.Text(cursor.id)], '.');
  }

  lemma RankReadsBack(source: Source)
    ensures IsNumber(Decimal.Text(Rank(source)), 2) && SourceOfRank(Decimal.Value(Decimal.Text(Rank(source)))) == Some(source)
  {
    Decimal.TextLength(Rank(source), 2);
    Decimal.ValueOfText(Rank(source));
  }

  lemma NumberReadsBack(n: nat, maxDigits: nat)
    requires maxDigits >= 1
    ensures IsNumber(Decimal.Text(n), maxDigits) <==> n < Decimal.Pow10(maxDigits)
    ensures Decimal.Value(Decimal.Text(n)) == n
  {
    Decimal.TextLength(n, maxDigits);
    Decimal.ValueOfText(n);
  }

  /** A cursor survives its text exactly when its time has at most 15 digits and its id at most 12. */
  lemma CursorRoundTrip(cursor: Cursor)
    ensures Decode(Encode(cursor)) == Some(cursor) <==>
            cursor.occurredAtMs < Decimal.Pow10(15) && cursor.id < Decimal.Pow10(12)
  {
    EncodingSplits(cursor);
    RankReadsBack(cursor.source);
    NumberReadsBack(cursor.occurredAtMs, 15);
    NumberReadsBack(cursor.id, 12);
  }

  /** Whatever text decodes, decodes to a cursor that survives being encoded again. */
  lemma DecodedCursorsSurvive(raw: string)
    requires Decode(raw).Some?
    ensures Decode(Encode(Decode(raw).value)) == Decode(raw)
  {
    var parts := Decimal.Split(raw, '.');
    ValueIsBelow(parts[0], 15);
    ValueIsBelow(parts[2], 12);
    CursorRoundTrip(Decode(raw).value);
  }

  lemma {:induction false} ValueIsBelow(s: string, d: nat)
    requires |s| <= d && Decimal.AllDigits(s)
    ensures Decimal.Value(s) < Decimal.Pow10(d)
    decreases d
  {
    if d > 0 && s != [] {
      ValueIsBelow(s[..|s| - 1], d - 1);
    }
  }

  /** The text itself: the time, the table's rank and the id, between dots. */
  lemma TextOfACursor(cursor: Cursor)
    ensures Encode(cursor) == Decimal.Text(cursor.occurredAtMs) + "." + Decimal.Text(Rank(cursor.source)) + "." + Decimal.Text(cursor.id)
    ensures Rank(Audit) == 1 && Rank(System) == 2 && Rank(Group) == 3
  {
    var a, b, c := Decimal.Text(cursor.occurredAtMs), Decimal.Text(Rank(cursor.source)), Decimal.Text(cursor.id);
    assert [a, b, c][1..] == [b, c] && [b, c][1..] == [c] && [c][1..] == [];
    assert Decimal.Join([c], '.') == c;
    assert Decimal.Join([b, c], '.') == b + ['.'] + c;
    assert Encode(cursor) == a + ['.'] + (b + ['.'] + c);
  }
}
