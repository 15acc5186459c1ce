/**
 `ModalParser.parse_modal_data` (parser/modal_parser.py): folding the rows of
 the shop modal into the five-field record, dispatching on each row's label,
 and the number parser it uses. The rows' label and value texts are passed in as the
 elements' `.text`, unstripped; the row loop strips both before it looks at them.
 */
module ModalParser {
  import opened Text

  /** What evaluating a Python expression gave: a value, or an exception. */
  datatype Outcome<T> = Raises | Value(value: T)

  /** `_parse_number`: `None` for an empty value, otherwise the integer its digits spell;
      `int('')` raises when a non-empty value holds no digit. */
  function ParseNumber(value: string): (r: Outcome<Option<nat>>)
    ensures value == [] ==> r == Value(None)
    ensures value != [] && Digits(value) == [] ==> r.Raises?
    ensures value != [] && Digits(value) != [] ==> r == Value(Some(NatOfDigits(Digits(value))))
  {
    if value == [] then Value(None)
    else
      var d := Digits(value);
      if d == [] then Raises else Value(Some(NatOfDigits(d)))
  }

  /** `_parse_rating` up to the float conversion: the first run of digits and commas, commas
      read as decimal points; `float` raises unless the run holds a digit and at most one
      comma. The text stands for the float it denotes. */
  function ParseRating(value: string): (r: Outcome<Option<string>>)
    ensures r.Value? && r.value.Some? ==> '.' in r.value.value || AllDigits(r.value.value)
  {
    match FirstRatingRun(value)
      case None => Value(None)
      case Some(run) =>
        if Digits(run) != [] && CommaCount(run) <= 1 then
          var t := ReplaceChar(run, ',', '.');
          assert forall i | 0 <= i < |t| :: IsDigit(t[i]) || t[i] == '.';
          Value(Some(t))
        else Raises
  }

  predicate RatingChar(c: char) {
    IsDigit(c) || c == ','
  }

  /** `re.search(r"[\d,]+", value)`: the leftmost maximal run of digits and commas. */
  function FirstRatingRun(s: string): (r: Option<string>)
    ensures r.Some? ==> r.value != [] && forall i | 0 <= i < |r.value| :: RatingChar(r.value[i])
  {
    if s == [] then None
    else if RatingChar(s[0]) then Some(RatingRunAt(s))
    else FirstRatingRun(s[1..])
  }

  function RatingRunAt(s: string): (r: string)
    requires s != [] && RatingChar(s[0])
    ensures r != [] && forall i | 0 <= i < |r| :: RatingChar(r[i])
  {
    if |s| > 1 && RatingChar(s[1]) then [s[0]] + RatingRunAt(s[1..]) else [s[0]]
  }

  function CommaCount(s: string): nat {
    if s == [] then 0 else (if s[0] == ',' then 1 else 0) + CommaCount(s[1..])
  }

  /** The `data` dict. */
  datatype ModalData = ModalData(
    isPremium: bool,
    ordersCount: Option<nat>,
    workingSince: Option<string>,
    averageRating: Option<string>,
    reviewsCount: Option<nat>)

  const Initial := ModalData(false, None, None, None, None)

  /** One row: the `.text` of its label and value elements, before `.strip()`, `None` where
      the element was not found. */
  datatype Row = Row(caption: Option<string>, value: Option<string>)

  /** The field a label selects: the first marker it contains, in the order the source tests. */
  datatype Slot = Premium | Orders | Since | Rating | Reviews | Ignored

  function SlotOf(caption: string): Slot {
    if Contains(caption, "Premium") then Premium
    else if Contains(caption, "Заказов") then Orders
    else if Contains(caption, "Работает") then Since
    else if Contains(caption, "Средняя оценка") then Rating
    else if Contains(caption, "Количество отзывов") then Reviews
    else Ignored
  }

  /** The value a field of the record holds; `Ignored` selects no field. */
  datatype Field = Flag(flag: bool) | Count(count: Option<nat>) | Words(words: Option<string>)

  function FieldOf(d: ModalData, slot: Slot): Field
    requires slot != Ignored
  {
    match slot
      case Premium => Flag(d.isPremium)
      case Orders => Count(d.ordersCount)
      case Since => Words(d.workingSince)
      case Rating => Words(d.averageRating)
      case Reviews => Count(d.reviewsCount)
  }

  /** What a row writes into the field of `slot`, if anything: its stripped label must select
      that field; a premium label writes `True` without reading the value; the others need a
      value element and write what the field's parser makes of the stripped value, or nothing
      when the parser raises. */
  function RowWrite(row: Row, slot: Slot): Option<Field>
    requires slot != Ignored
  {
    if row.caption.None? || SlotOf(Strip(row.caption.value)) != slot then None
    else if slot == Premium then Some(Flag(true))
    else if row.value.None? then None
    else
      var value := Strip(row.value.value);
      if slot == Since then Some(Words(Some(value)))
      else if slot == Rating then
        (match ParseRating(value) case Raises => None case Value(x) => Some(Words(x)))
      else (match ParseNumber(value) case Raises => None case Value(n) => Some(Count(n)))
  }

  /** The body of the row loop: the label and value are stripped first; a row that raises
      anywhere leaves `data` as it was. */
  function ModalStep(d: ModalData, row: Row): (r: ModalData)
    ensures row.caption.None? ==> r == d
    ensures row.caption.Some? && SlotOf(Strip(row.caption.value)) == Premium ==> r == d.(isPremium := true)
    ensures row.caption.Some? && SlotOf(Strip(row.caption.value)) == Ignored ==> r == d
    ensures r.isPremium == (d.isPremium || (row.caption.Some? && SlotOf(Strip(row.caption.value)) == Premium))
    ensures row.caption.Some? && SlotOf(Strip(row.caption.value)) != Premium && row.value.None? ==> r == d
    ensures (row.caption.Some? && row.value.Some? && ParseNumber(Strip(row.value.value)).Raises?
             && SlotOf(Strip(row.caption.value)) in {Orders, Reviews}) ==> r == d
    ensures (row.caption.Some? && row.value.Some? && SlotOf(Strip(row.caption.value)) == Orders
             && ParseNumber(Strip(row.value.value)).Value?) ==>
      r == d.(ordersCount := ParseNumber(Strip(row.value.value)).value)
    ensures (row.caption.Some? && row.value.Some? && SlotOf(Strip(row.caption.value)) == Since) ==>
      r == d.(workingSince := Some(Strip(row.value.value)))
    ensures (row.caption.Some? && row.value.Some? && SlotOf(Strip(row.caption.value)) == Rating) ==>
      r == match ParseRating(Strip(row.value.value)) case Raises => d case Value(x) => d.(averageRating := x)
    ensures (row.caption.Some? && row.value.Some? && SlotOf(Strip(row.caption.value)) == Reviews
             && ParseNumber(Strip(row.value.value)).Value?) ==>
      r == d.(reviewsCount := ParseNumber(Strip(row.value.value)).value)
  {
    match row.caption
      case None => d
      case Some(caption) =>
        var slot := SlotOf(Strip(caption));
        if slot == Premium then d.(isPremium := true)
        else if row.value.None? then d
        else
          var value := Strip(row.value.value);
          match slot
            case Orders => (match ParseNumber(value) case Raises => d case Value(n) => d.(ordersCount := n))
            case Since => d.(workingSince := Some(value))
            case Rating => (match ParseRating(value) case Raises => d case Value(x) => d.(averageRating := x))
            case Reviews => (match ParseNumber(value) case Raises => d case Value(n) => d.(reviewsCount := n))
            case _ => d
  }

  /** A value element holding only whitespace strips to the empty text, which the count fields
      take as "no number": it clears an orders or reviews count set by an earlier row. */
  lemma BlankValueClears(d: ModalData, caption: string, blank: string)
    requires SlotOf(Strip(caption)) in {Orders, Reviews}
    requires forall i | 0 <= i < |blank| :: IsSpace(blank[i])
    ensures var r := ModalStep(d, Row(Some(caption), Some(blank)));
      if SlotOf(Strip(caption)) == Orders then r == d.(ordersCount := None) else r == d.(reviewsCount := None)
  {
    StripNonBlank(blank);
  }

  /** The working-since text is stored without the whitespace around it. */
  lemma SinceStoredStripped(d: ModalData, caption: string, value: string)
    requires SlotOf(Strip(caption)) == Since
    ensures var r := ModalStep(d, Row(Some(caption), Some(value)));
      r.workingSince.Some? && Strip(r.workingSince.value) == r.workingSince.value
      && InfixAt(value, r.workingSince.value, |value| - |TrimLeft(value)|)
  {
    StripIdempotent(value);
    StripInfix(value);
  }

  /** Each field after one row is what the row writes into it, or what it held before. */
  lemma StepWrites(d: ModalData, row: Row, slot: Slot)
    requires slot != Ignored
    ensures FieldOf(ModalStep(d, row), slot) == match RowWrite(row, slot) case Some(f) => f case None => FieldOf(d, slot)
  {
  }

  /** `parse_modal_data`: the rows folded in order from the initial record. Each field holds
      what the last row writing it wrote, and its initial value when no row writes it. */
  function ParseModalData(rows: seq<Row>): (r: ModalData)
    ensures rows == [] ==> r == Initial
    ensures r.isPremium <==>
      exists i | 0 <= i < |rows| :: rows[i].caption.Some? && Contains(Strip(rows[i].caption.value), "Premium")
    ensures Count(r.ordersCount) == LastWrite(Count(None), Orders, rows)
    ensures Words(r.workingSince) == LastWrite(Words(None), Since, rows)
    ensures Words(r.averageRating) == LastWrite(Words(None), Rating, rows)
    ensures Count(r.reviewsCount) == LastWrite(Count(None), Reviews, rows)
  {
    PremiumIffRow(Initial, rows);
    LastWins(Initial, rows, Orders);
    LastWins(Initial, rows, Since);
    LastWins(Initial, rows, Rating);
    LastWins(Initial, rows, Reviews);
    Fold(Initial, rows)
  }

  function Fold(d: ModalData, rows: seq<Row>): ModalData
    decreases |rows|
  {
    if rows == [] then d else Fold(ModalStep(d, rows[0]), rows[1..])
  }

  /** The record is premium exactly when some row's stripped label contains "Premium". */
  lemma {:induction false} PremiumIffRow(d: ModalData, rows: seq<Row>)
    ensures Fold(d, rows).isPremium <==>
      d.isPremium || exists i | 0 <= i < |rows| :: rows[i].caption.Some? && Contains(Strip(rows[i].caption.value), "Premium")
    decreases |rows|
  {
    if rows != [] {
      PremiumIffRow(ModalStep(d, rows[0]), rows[1..]);
      if exists i | 0 <= i < |rows| - 1 :: rows[1..][i].caption.Some? && Contains(Strip(rows[1..][i].caption.value), "Premium") {
        var i :| 0 <= i < |rows| - 1 && rows[1..][i].caption.Some? && Contains(Strip(rows[1..][i].caption.value), "Premium");
        assert rows[i + 1] == rows[1..][i];
      }
      if exists i | 0 <= i < |rows| :: rows[i].caption.Some? && Contains(Strip(rows[i].caption.value), "Premium") {
        var i :| 0 <= i < |rows| && rows[i].caption.Some? && Contains(Strip(rows[i].caption.value), "Premium");
        if i > 0 {
          assert rows[1..][i - 1] == rows[i];
        }
      }
    }
  }

  /** What the last row writing the field of `slot` wrote, or `init` when no row writes it. */
  function LastWrite(init: Field, slot: Slot, rows: seq<Row>): Field
    requires slot != Ignored
  {
    if rows == [] then init
    else
      match RowWrite(rows[|rows| - 1], slot)
        case Some(f) => f
        case None => LastWrite(init, slot, rows[..|rows| - 1])
  }

  lemma {:induction false} FoldSnoc(d: ModalData, rows: seq<Row>, row: Row)
    ensures Fold(d, rows + [row]) == ModalStep(Fold(d, rows), row)
    decreases |rows|
  {
    if rows != [] {
      assert (rows + [row])[1..] == rows[1..] + [row];
      FoldSnoc(ModalStep(d, rows[0]), rows[1..], row);
    }
  }

  /** Later rows overwrite earlier ones: every field holds what the last row writing it
      wrote, and rows of other labels, or whose stripped value makes the parser raise, never
      touch it; a blank value is no such row, since it strips to the empty text and writes
      `None` into a count. */
  lemma {:induction false} LastWins(d: ModalData, rows: seq<Row>, slot: Slot)
    requires slot != Ignored
    ensures FieldOf(Fold(d, rows), slot) == LastWrite(FieldOf(d, slot), slot, rows)
  {
    if rows != [] {
      var init := rows[..|rows| - 1];
      var last := rows[|rows| - 1];
      assert rows == init + [last];
      FoldSnoc(d, init, last);
      LastWins(d, init, slot);
      StepWrites(Fold(d, init), last, slot);
    }
  }
}
