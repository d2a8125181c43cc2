// Numbered menus (src/menus.rs): entries the user triggers by typing their
// number on a line.

module Menus {
  import opened Wrappers
  import opened Input

  /** Terminal colors (src/rendering.rs); an entry is drawn in one. */
  datatype Color =
    | Black | Blue | Cyan | DarkBlue | DarkCyan | DarkGreen | DarkGrey | DarkMagenta
    | DarkRed | DarkYellow | Green | Grey | Magenta | Red | Reset | White | Yellow

  /** An item of a menu, triggered by typing `key`. */
  datatype MenuEntry = MenuEntry(color: Color, isEnabled: bool, isVisible: bool, key: nat, text: string)

  /** `MenuEntry::new`: a white entry, enabled and visible. */
  function NewEntry(text: string, key: nat): (e: MenuEntry)
    ensures e.color == White && e.isEnabled && e.isVisible
    ensures e.key == key && e.text == text
  {
    MenuEntry(White, true, true, key, text)
  }

  /** An identifier unique across one menu. */
  datatype MenuEntryId = MenuEntryId(id: nat)

  /** The largest `usize` on a 64-bit target. */
  const UsizeMax: nat := 0xFFFF_FFFF_FFFF_FFFF

  predicate IsDigit(c: char) {
    '0' <= c <= '9'
  }

  predicate AllDigits(s: string) {
    forall i :: 0 <= i < |s| ==> IsDigit(s[i])
  }

  /** The number a string of decimal digits denotes. */
  function DecimalValue(s: string): nat
    requires AllDigits(s)
  {
    if |s| == 0 then 0
    else DecimalValue(s[..|s| - 1]) * 10 + (s[|s| - 1] as int - '0' as int)
  }

  /** `str::parse::<usize>` on decimal text: a non-empty run of digits whose
      value fits a `usize`; anything else fails. */
  function ParseUsize(s: string): (r: Option<nat>)
    ensures r.Some? ==> r.value <= UsizeMax
    ensures r.Some? ==> |s| > 0 && AllDigits(s)
    ensures |s| == 0 ==> r == None
    ensures |s| > 0 && AllDigits(s) ==> (r == Some(DecimalValue(s)) <==> DecimalValue(s) <= UsizeMax)
  {
    if |s| > 0 && AllDigits(s) && DecimalValue(s) <= UsizeMax then Some(DecimalValue(s)) else None
  }

  /** The decimal text of `n`, without leading zeros (how a key is displayed). */
  function Decimal(n: nat): (s: string)
    ensures |s| > 0 && AllDigits(s)
  {
    var d := ['0' + (n % 10) as char];
    if n < 10 then d else Decimal(n / 10) + d
  }

  /** Reading back the text of a key gives the key. */
  lemma {:induction false} DecimalRoundTrip(n: nat)
    ensures DecimalValue(Decimal(n)) == n
  {
    var s := Decimal(n);
    assert s[..|s| - 1] == if n < 10 then [] else Decimal(n / 10);
    if n >= 10 {
      DecimalRoundTrip(n / 10);
    }
  }

  /** Any key that fits a `usize`, typed in decimal, parses to itself. */
  lemma ParseDecimal(n: nat)
    requires n <= UsizeMax
    ensures ParseUsize(Decimal(n)) == Some(n)
  {
    DecimalRoundTrip(n);
  }

  /** A run of zeros denotes zero. */
  lemma {:induction false} ZerosValue(z: string)
    requires forall i :: 0 <= i < |z| ==> z[i] == '0'
    ensures AllDigits(z) && DecimalValue(z) == 0
  {
    if |z| > 0 {
      ZerosValue(z[..|z| - 1]);
    }
  }

  /** Leading zeros do not change the number a run of digits denotes. */
  lemma {:induction false} LeadingZerosIgnored(z: string, s: string)
    requires forall i :: 0 <= i < |z| ==> z[i] == '0'
    requires AllDigits(s)
    ensures AllDigits(z + s) && DecimalValue(z + s) == DecimalValue(s)
    decreases |s|
  {
    if |s| == 0 {
      ZerosValue(z);
      assert z + s == z;
    } else {
      LeadingZerosIgnored(z, s[..|s| - 1]);
      assert (z + s)[..|z + s| - 1] == z + s[..|s| - 1];
    }
  }

  /** A key typed with leading zeros ("01") still selects that key. */
  lemma ParseWithLeadingZeros(z: string, n: nat)
    requires forall i :: 0 <= i < |z| ==> z[i] == '0'
    requires n <= UsizeMax
    ensures ParseUsize(z + Decimal(n)) == Some(n)
  {
    DecimalRoundTrip(n);
    LeadingZerosIgnored(z, Decimal(n));
  }

  /** The position of the first entry whose key is `key`. */
  function FirstWithKey(entries: seq<(MenuEntryId, MenuEntry)>, key: nat): (r: Option<nat>)
    ensures r.Some? ==> (r.value < |entries| && entries[r.value].1.key == key &&
      forall j :: 0 <= j < r.value ==> entries[j].1.key != key)
    ensures r.None? ==> forall j :: 0 <= j < |entries| ==> entries[j].1.key != key
  {
    if |entries| == 0 then None
    else if entries[0].1.key == key then Some(0)
    else match FirstWithKey(entries[1..], key)
      case Some(i) => Some(i + 1)
      case None => None
  }

  /** A menu: its entries in display order, and the next identifier to hand out. */
  class Menu {
    var entries: seq<(MenuEntryId, MenuEntry)>
    var next_id: nat

    /** Identifiers increase along the menu and were all handed out already. */
    ghost predicate Valid()
      reads this
    {
      && (forall i :: 0 <= i < |entries| ==> entries[i].0.id < next_id)
      && (forall i, j :: 0 <= i < j < |entries| ==> entries[i].0.id < entries[j].0.id)
    }

    /** `Menu::new`: no entries; the first identifier will be 0. */
    constructor ()
      ensures Valid()
      ensures entries == [] && next_id == 0
    {
      entries := [];
      next_id := 0;
    }

    /** `Menu::push`: appends `entry` under a new identifier and returns it. */
    method Push(entry: MenuEntry) returns (id: MenuEntryId)
      requires Valid()
      modifies this
      ensures Valid()
      ensures id == MenuEntryId(old(next_id))
      ensures entries == old(entries) + [(id, entry)]
      ensures next_id == old(next_id) + 1
    {
      id := MenuEntryId(next_id);
      entries := entries + [(id, entry)];
      next_id := next_id + 1;
    }

    /** `Menu::handle_input`: the identifier of the first entry whose key is
        the typed number, when that entry is enabled and visible; nothing when
        the line is not a number, no entry has that key, or the first one with
        it cannot be triggered. */
    function HandleInput(input: string): (r: Option<MenuEntryId>)
      reads this
      ensures r.Some? <==> (ParseUsize(input).Some? &&
        exists i :: 0 <= i < |entries| && entries[i].1.key == ParseUsize(input).value &&
          entries[i].1.isEnabled && entries[i].1.isVisible &&
          forall j :: 0 <= j < i ==> entries[j].1.key != ParseUsize(input).value)
      ensures r.Some? ==>
        exists i :: 0 <= i < |entries| && entries[i].0 == r.value && entries[i].1.key == ParseUsize(input).value
      ensures r.Some? ==> (FirstWithKey(entries, ParseUsize(input).value).Some? &&
        r.value == entries[FirstWithKey(entries, ParseUsize(input).value).value].0)
    {
      match ParseUsize(input)
      case None => None
      case Some(key) =>
        match FirstWithKey(entries, key)
        case None => None
        case Some(i) =>
          if entries[i].1.isEnabled && entries[i].1.isVisible then Some(entries[i].0) else None
    }
  }

  /** In a menu whose entries can all be triggered and carry the keys 1, 2,
      3, ... in order, typing `n` selects the `n`-th entry and any other line
      selects nothing. */
  lemma NumberedMenuInput(menu: Menu, line: string)
    requires forall i :: 0 <= i < |menu.entries| ==>
      menu.entries[i].1.key == i + 1 && menu.entries[i].1.isEnabled && menu.entries[i].1.isVisible
    ensures ParseUsize(line).Some? && 1 <= ParseUsize(line).value <= |menu.entries| ==>
      menu.HandleInput(line) == Some(menu.entries[ParseUsize(line).value - 1].0)
    ensures !(ParseUsize(line).Some? && 1 <= ParseUsize(line).value <= |menu.entries|) ==>
      menu.HandleInput(line) == None
  {
    var k := ParseUsize(line);
    if k.Some? && 1 <= k.value <= |menu.entries| {
      var f := FirstWithKey(menu.entries, k.value);
      assert menu.entries[k.value - 1].1.key == k.value;
      assert f.Some? && f.value == k.value - 1;
    }
  }

  /** The blanket `State::handle_input` of menu states: the entry a line
      selects, to be handed to the state's `handle_selection`; a key event
      selects nothing. */
  function MenuSelection(menu: Menu, input: InputEvent): (r: Option<MenuEntryId>)
    reads menu
    ensures input.Key? ==> r == None
    ensures r.Some? ==> input.Line? && r == menu.HandleInput(input.line)
    ensures input.Line? && menu.HandleInput(input.line).Some? ==> r.Some?
  {
    match input
    case Key(_) => None
    case Line(line) => menu.HandleInput(line)
  }
}
