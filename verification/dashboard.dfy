/**
 * The text the dashboard of frontend/app.js shows for the room listing:
 * the duration formatter, the per-room label and the empty-list notice.
 * Durations are integral seconds; JavaScript's null and undefined are None.
 */
module Dashboard {

  import opened Options
  import Decimal
  import Occupancy

  /** A duration split into whole hours, minutes and seconds. */
  datatype Split = Split(hours: nat, minutes: nat, seconds: nat)

  /** The number of seconds a split stands for. */
  function Total(s: Split): nat {
    s.hours * 3600 + s.minutes * 60 + s.seconds
  }

  /** Negative durations are shown as zero. */
  function Clamp(x: int): nat
  {
    if x < 0 then 0 else x
  }

  /** Hours, the minutes left over, and the seconds left over. */
  function SplitSeconds(total: nat): (s: Split)
    ensures Total(s) == total
    ensures s.minutes < 60 && s.seconds < 60
  {
    var hours := total / 3600;
    var minutes := (total % 3600) / 60;
    var remaining := total % 60;
    assert total % 3600 == minutes * 60 + remaining by {
      assert total == (total / 60) * 60 + remaining;
      assert total / 60 == hours * 60 + minutes by {
        assert total == hours * 3600 + total % 3600;
        assert total % 3600 == minutes * 60 + (total % 3600) % 60;
      }
    }
    Split(hours, minutes, remaining)
  }

  /** The split is the only one whose minutes and seconds are below 60. */
  lemma SplitUnique(total: nat, s: Split)
    requires Total(s) == total && s.minutes < 60 && s.seconds < 60
    ensures s == SplitSeconds(total)
  {
    var t := SplitSeconds(total);
    var a := s.minutes * 60 + s.seconds;
    var b := t.minutes * 60 + t.seconds;
    assert a < 3600 && b < 3600;
    assert (s.hours - t.hours) * 3600 == b - a;
    assert s.hours == t.hours;
    assert s.minutes * 60 + s.seconds == t.minutes * 60 + t.seconds;
    assert (s.minutes - t.minutes) * 60 == t.seconds - s.seconds;
  }

  /** formatDuration: the empty string for no value, else the largest non-zero unit first. */
  function FormatDuration(totalSeconds: Option<int>): (r: string)
    ensures r == "" <==> totalSeconds.None?
    ensures totalSeconds.Some? ==> r[|r| - 1] == 's'
  {
    match totalSeconds
    case None => ""
    case Some(x) => FormatSplit(SplitSeconds(Clamp(x)))
  }

  /** The three shapes of formatDuration's text, chosen by the largest non-zero unit. */
  function FormatSplit(s: Split): (r: string)
    ensures |r| > 0 && r[|r| - 1] == 's'
  {
    if s.hours > 0 then
      Decimal.FromNat(s.hours) + "h " + Decimal.FromNat(s.minutes) + "m " + Decimal.FromNat(s.seconds) + "s"
    else if s.minutes > 0 then
      Decimal.FromNat(s.minutes) + "m " + Decimal.FromNat(s.seconds) + "s"
    else
      Decimal.FromNat(s.seconds) + "s"
  }

  /** A count followed by its one-letter unit, as in `12h`. */
  type Item = (nat, char)

  /** Items written one after another, separated by single spaces. */
  function Show(items: seq<Item>): string
    requires |items| > 0
    decreases |items|
  {
    Decimal.FromNat(items[0].0) + [items[0].1] + (if |items| == 1 then "" else " " + Show(items[1..]))
  }

  /** Reads space-separated items; None when the text is not of that shape. */
  function ReadItems(text: string): Option<seq<Item>>
    decreases |text|
  {
    match Decimal.ReadNat(text)
    case None => None
    case Some((n, rest)) =>
      if |rest| == 0 then None
      else if |rest| == 1 then Some([(n, rest[0])])
      else if rest[1] != ' ' then None
      else
        match ReadItems(rest[2..])
        case None => None
        case Some(more) => Some([(n, rest[0])] + more)
  }

  /** Items whose units are not digits are read back from their text. */
  lemma {:induction false} ReadItemsShow(items: seq<Item>)
    requires |items| > 0
    requires forall i :: 0 <= i < |items| ==> !Decimal.IsDigit(items[i].1)
    ensures ReadItems(Show(items)) == Some(items)
    decreases |items|
  {
    var n, u := items[0].0, items[0].1;
    var rest := [u] + (if |items| == 1 then "" else " " + Show(items[1..]));
    assert Show(items) == Decimal.FromNat(n) + rest;
    Decimal.ReadNatFromNat(n, rest);
    assert Decimal.ReadNat(Show(items)) == Some((n, rest));
    if |items| > 1 {
      assert |rest| > 1 && rest[1] == ' ';
      assert rest[2..] == Show(items[1..]);
      ReadItemsShow(items[1..]);
      assert items == [(n, u)] + items[1..];
      assert ReadItems(Show(items)) == Some([(n, u)] + items[1..]);
    } else {
      assert ReadItems(Show(items)) == Some([(n, u)]);
      assert items == [(n, u)];
    }
  }

  /** The items a split is written as: the largest non-zero unit first, seconds always. */
  function ItemsOf(s: Split): (items: seq<Item>)
    ensures |items| > 0
  {
    if s.hours > 0 then [(s.hours, 'h'), (s.minutes, 'm'), (s.seconds, 's')]
    else if s.minutes > 0 then [(s.minutes, 'm'), (s.seconds, 's')]
    else [(s.seconds, 's')]
  }

  /** A number's text, a unit, a space and more items is the text of the longer item list. */
  lemma ShowCons(n: nat, rest: string, more: seq<Item>)
    requires |rest| > 1 && rest[1] == ' ' && |more| > 0 && rest[2..] == Show(more)
    ensures Decimal.FromNat(n) + rest == Show([(n, rest[0])] + more)
  {
    var items := [(n, rest[0])] + more;
    var d := Decimal.FromNat(n);
    assert items[1..] == more;
    assert Show(items) == d + [rest[0]] + (" " + Show(more));
    SpacedSplit(d, rest);
  }

  /** A string whose second character is a space splits into its first character, the space and the rest. */
  lemma SpacedSplit(d: string, rest: string)
    requires |rest| > 1 && rest[1] == ' '
    ensures d + rest == d + [rest[0]] + (" " + rest[2..])
  {
    assert rest == [rest[0]] + (" " + rest[2..]);
  }

  /** Text that reads as items is exactly those items written out. */
  lemma {:induction false} ShowReadItems(text: string)
    requires ReadItems(text).Some?
    ensures text == Show(ReadItems(text).value)
    decreases |text|
  {
    var n := Decimal.ReadNat(text).value.0;
    var rest := Decimal.ReadNat(text).value.1;
    Decimal.ReadNatShows(text);
    if |rest| > 1 {
      var more := ReadItems(rest[2..]).value;
      ShowReadItems(rest[2..]);
      ShowCons(n, rest, more);
    } else {
      assert rest == [rest[0]];
    }
  }

  /**
   * The split shown by a formatted duration, or None when the text is not one.
   * Only the formatter's own spelling is accepted: no leading zeros, and a
   * leading hours or minutes count is not zero.
   */
  function ParseDuration(text: string): Option<Split>
  {
    match ReadItems(text)
    case None => None
    case Some(items) =>
      if |items| == 1 && items[0].1 == 's' then Some(Split(0, 0, items[0].0))
      else if |items| == 2 && items[0].1 == 'm' && items[1].1 == 's' && items[0].0 > 0 then
        Some(Split(0, items[0].0, items[1].0))
      else if |items| == 3 && items[0].1 == 'h' && items[1].1 == 'm' && items[2].1 == 's' && items[0].0 > 0 then
        Some(Split(items[0].0, items[1].0, items[2].0))
      else None
  }

  /** The reader accepts nothing but the formatter's text: whatever reads as a split is that split formatted. */
  lemma ParseOnlyFormatted(text: string)
    requires ParseDuration(text).Some?
    ensures text == FormatSplit(ParseDuration(text).value)
  {
    ShowReadItems(text);
    var s := ParseDuration(text).value;
    assert ReadItems(text).value == ItemsOf(s);
    FormatIsShow(s);
  }

  /** A read split with minutes and seconds below 60 is the formatting of its total, character for character. */
  lemma ParsedIsFormatDuration(text: string)
    requires ParseDuration(text).Some?
    requires ParseDuration(text).value.minutes < 60 && ParseDuration(text).value.seconds < 60
    ensures text == FormatDuration(Some(Total(ParseDuration(text).value)))
  {
    var s := ParseDuration(text).value;
    ParseOnlyFormatted(text);
    SplitUnique(Total(s), s);
  }

  /** Each of formatDuration's three shapes is the split's items joined by spaces. */
  lemma FormatIsShow(s: Split)
    ensures FormatSplit(s) == Show(ItemsOf(s))
  {
    var h, m, sec := Decimal.FromNat(s.hours), Decimal.FromNat(s.minutes), Decimal.FromNat(s.seconds);
    assert Show([(s.seconds, 's')]) == sec + "s";
    assert Show([(s.minutes, 'm'), (s.seconds, 's')]) == m + "m " + sec + "s";
    assert Show([(s.hours, 'h'), (s.minutes, 'm'), (s.seconds, 's')]) == h + "h " + m + "m " + sec + "s";
  }

  /** Reading a formatted split gives the split back. */
  lemma ParseFormatSplit(s: Split)
    ensures ParseDuration(FormatSplit(s)) == Some(s)
  {
    FormatIsShow(s);
    var items := ItemsOf(s);
    ReadItemsShow(items);
    assert ReadItems(FormatSplit(s)) == Some(items);
  }

  /** Formatting loses nothing: the text reads back as the clamped duration, split into hours, minutes and seconds. */
  lemma FormatDurationRoundTrip(x: int)
    ensures ParseDuration(FormatDuration(Some(x))) == Some(SplitSeconds(Clamp(x)))
    ensures Total(ParseDuration(FormatDuration(Some(x))).value) == Clamp(x)
  {
    var s := SplitSeconds(Clamp(x));
    assert FormatDuration(Some(x)) == FormatSplit(s);
    ParseFormatSplit(s);
  }

  /** The prefix of the label of an occupied room. */
  const OccupiedPrefix := "Ocupada há "

  /** The label of a free room. */
  const FreeLabel := "Disponível"

  /** The notice shown when there is no room to list. */
  const EmptyNotice := "Sem salas registadas."

  /** The text under a room's name. */
  function RoomLabel(room: Occupancy.RoomView): (text: string)
    ensures room.state == 1 ==> text == OccupiedPrefix + FormatDuration(room.occupiedSeconds)
    ensures room.state != 1 ==> text == FreeLabel
  {
    if room.state == 1 then OccupiedPrefix + FormatDuration(room.occupiedSeconds) else FreeLabel
  }

  /** The label alone tells an occupied room from any other. */
  lemma LabelShowsState(room: Occupancy.RoomView)
    ensures |RoomLabel(room)| >= |OccupiedPrefix| && RoomLabel(room)[..|OccupiedPrefix|] == OccupiedPrefix
            <==> room.state == 1
    ensures room.state != 1 ==> RoomLabel(room) == FreeLabel
  {
  }

  /** The label of an occupied room shows its duration, read back exactly once clamped at zero. */
  lemma LabelShowsDuration(room: Occupancy.RoomView)
    requires room.state == 1 && room.occupiedSeconds.Some?
    ensures ParseDuration(RoomLabel(room)[|OccupiedPrefix|..]) == Some(SplitSeconds(Clamp(room.occupiedSeconds.value)))
  {
    assert RoomLabel(room)[|OccupiedPrefix|..] == FormatDuration(room.occupiedSeconds);
    FormatDurationRoundTrip(room.occupiedSeconds.value);
  }

  /** One card of the listing. */
  datatype Card = Card(name: string, busy: bool, text: string)

  /** What the list element holds: a notice, or one card per room. */
  datatype Panel = Notice(message: string) | Cards(cards: seq<Card>)

  /** renderRooms without the DOM: the notice for an empty list, else a card per room in listing order. */
  function RenderRooms(rooms: seq<Occupancy.RoomView>): (p: Panel)
    ensures p.Notice? <==> |rooms| == 0
    ensures p.Notice? ==> p.message == EmptyNotice
    ensures p.Cards? ==> |p.cards| == |rooms|
    ensures p.Cards? ==> forall i :: 0 <= i < |rooms| ==>
              && p.cards[i].name == rooms[i].roomName
              && (p.cards[i].busy <==> rooms[i].state == 1)
              && p.cards[i].text == RoomLabel(rooms[i])
  {
    if |rooms| == 0 then Notice(EmptyNotice)
    else Cards(seq(|rooms|, i requires 0 <= i < |rooms| => Card(rooms[i].roomName, rooms[i].state == 1, RoomLabel(rooms[i]))))
  }
}
