/** Bencoding (BEP 3, section "bencoding") as the library prints and loads it. */
module Bencode {
  import opened Numerals

  /** A map is kept as its entries in iteration order: ascending keys. */
  datatype Node =
    | Number(n: int)
    | Text(s: string)
    | Array(items: seq<Node>)
    | Dict(entries: seq<Entry>)

  datatype Entry = Entry(key: string, value: Node)

  /** What a loader function yields: a value and the characters left, or nothing, where the
      library runs out of input, loops for ever or returns garbage from a failed stream. */
  datatype Parsed<T> = Fail | Got(value: T, rest: string)

  // ----- printing

  function TextCode(s: string): string {
    Digits(|s|) + ":" + s
  }

  function Code(t: Node): (r: string)
    ensures r != ""
  {
    match t
    case Number(n) => "i" + Numeral(n) + "e"
    case Text(s) => TextCode(s)
    case Array(items) => "l" + ItemsCode(items) + "e"
    case Dict(entries) => "d" + EntriesCode(entries) + "e"
  }

  function ItemsCode(items: seq<Node>): string {
    if items == [] then "" else Code(items[0]) + ItemsCode(items[1..])
  }

  function EntriesCode(entries: seq<Entry>): string {
    if entries == [] then ""
    else TextCode(entries[0].key) + Code(entries[0].value) + EntriesCode(entries[1..])
  }

  // ----- loading

  const INT64_MIN := -0x8000_0000_0000_0000
  const INT64_MAX := 0x7FFF_FFFF_FFFF_FFFF
  const SIZE_MAX := 0xFFFF_FFFF_FFFF_FFFF

  predicate IsSpace(c: char) {
    c == ' ' || '\t' <= c <= '\r'
  }

  function SkipSpace(x: string): (r: string)
    ensures |r| <= |x|
  {
    if x != "" && IsSpace(x[0]) then SkipSpace(x[1..]) else x
  }

  /** `get()`, which takes nothing at the end. */
  function Drop(x: string, n: nat): (r: string)
    ensures |r| <= |x|
  {
    if n <= |x| then x[n..] else ""
  }

  /** `>>` into a signed 64-bit number. */
  function ReadSigned(x: string): (r: Parsed<int>)
    ensures r.Got? ==> |r.rest| < |x|
  {
    var y := SkipSpace(x);
    var signed := y != "" && (y[0] == '-' || y[0] == '+');
    var z := if signed then y[1..] else y;
    if !StartsWithDigit(z) then Fail
    else
      var (v, rest) := Scan(z, 0);
      var m: int := v;
      var n := if signed && y[0] == '-' then -m else m;
      if INT64_MIN <= n <= INT64_MAX then Got(n, rest) else Fail
  }

  /** `>>` into a size; a minus sign is not described. */
  function ReadSize(x: string): (r: Parsed<nat>)
    ensures r.Got? ==> |r.rest| < |x|
  {
    var y := SkipSpace(x);
    var z := if y != "" && y[0] == '+' then y[1..] else y;
    if !StartsWithDigit(z) then Fail
    else
      var (v, rest) := Scan(z, 0);
      if v <= SIZE_MAX then Got(v, rest) else Fail
  }

  /** `LoadNumber`: whatever characters stand where 'i' and 'e' should. */
  function LoadNumber(x: string): (r: Parsed<Node>)
    ensures r.Got? ==> |r.rest| < |x|
  {
    var n := ReadSigned(Drop(x, 1));
    if n.Fail? then Fail else Got(Number(n.value), Drop(n.rest, 1))
  }

  /** `LoadStr`: the copy leaves the last character to the final `get()`, so after an empty string
      that `get()` swallows a character that is not part of it: `gap` is 1 in the library, and 0
      in a loader without that flaw. */
  function LoadStr(x: string, gap: nat): (r: Parsed<string>)
    ensures r.Got? ==> |r.rest| < |x|
  {
    var size := ReadSize(x);
    if size.Fail? then Fail
    else
      var y := Drop(size.rest, 1);
      if size.value == 0 then Got("", Drop(y, gap))
      else if size.value <= |y| then Got(y[..size.value], y[size.value..])
      else Fail
  }

  const CHAR_MINUS_ONE := 255 as char

  /** `LoadNode`: the end of input loads as an empty dictionary, and so would begin one the
      character whose code is that of EOF. */
  function LoadNode(x: string, gap: nat): (r: Parsed<Node>)
    ensures r.Got? ==> |r.rest| <= |x| && (x != "" ==> |r.rest| < |x|)
    decreases |x|, 1
  {
    if x == "" then Got(Dict([]), "")
    else if x[0] == 'i' then LoadNumber(x)
    else if x[0] == 'l' then
      var items := LoadItems(x[1..], gap);
      if items.Fail? then Fail else Got(Array(items.value), items.rest)
    else if x[0] == 'd' || x[0] == CHAR_MINUS_ONE then
      var pairs := LoadPairs(x[1..], gap);
      if pairs.Fail? then Fail else Got(Dict(Collected([], pairs.value)), pairs.rest)
    else
      var s := LoadStr(x, gap);
      if s.Fail? then Fail else Got(Text(s.value), s.rest)
  }

  function LoadItems(x: string, gap: nat): (r: Parsed<seq<Node>>)
    ensures r.Got? ==> |r.rest| < |x|
    decreases |x|, 2
  {
    if x == "" then Fail
    else if x[0] == 'e' then Got([], x[1..])
    else
      var item := LoadNode(x, gap);
      if item.Fail? then Fail
      else
        var items := LoadItems(item.rest, gap);
        if items.Fail? then Fail else Got([item.value] + items.value, items.rest)
  }

  /** Keys and values in the order they are read. */
  function LoadPairs(x: string, gap: nat): (r: Parsed<seq<Entry>>)
    ensures r.Got? ==> |r.rest| < |x|
    decreases |x|, 2
  {
    if x == "" then Fail
    else if x[0] == 'e' then Got([], x[1..])
    else
      var key := LoadStr(x, gap);
      if key.Fail? then Fail
      else
        var value := LoadNode(key.rest, gap);
        if value.Fail? then Fail
        else
          var pairs := LoadPairs(value.rest, gap);
          if pairs.Fail? then Fail else Got([Entry(key.value, value.value)] + pairs.value, pairs.rest)
  }

  /** `std::map::emplace`: a key that is there already stays as it is. */
  function Emplace(m: seq<Entry>, e: Entry): seq<Entry> {
    if m == [] then [e]
    else if m[0].key == e.key then m
    else if Less(e.key, m[0].key) then [e] + m
    else [m[0]] + Emplace(m[1..], e)
  }

  /** A map after emplacing pairs one by one. */
  function Collected(m: seq<Entry>, pairs: seq<Entry>): seq<Entry>
    decreases pairs
  {
    if pairs == [] then m else Collected(Emplace(m, pairs[0]), pairs[1..])
  }

  // ----- trees a document can hold

  predicate Ascending(entries: seq<Entry>) {
    forall i, j :: 0 <= i < j < |entries| ==> Less(entries[i].key, entries[j].key)
  }

  /** 64-bit numbers and lengths, and maps with ascending keys. */
  predicate WellFormed(t: Node) {
    match t
    case Number(n) => INT64_MIN <= n <= INT64_MAX
    case Text(s) => |s| <= SIZE_MAX
    case Array(items) => WellFormedItems(items)
    case Dict(entries) => Ascending(entries) && WellFormedEntries(entries)
  }

  predicate WellFormedItems(items: seq<Node>) {
    items != [] ==> WellFormed(items[0]) && WellFormedItems(items[1..])
  }

  predicate WellFormedEntries(entries: seq<Entry>) {
    entries != [] ==>
      |entries[0].key| <= SIZE_MAX && WellFormed(entries[0].value) && WellFormedEntries(entries[1..])
  }

  /** How many empty strings, keys included, a tree holds. */
  function Empties(t: Node): nat {
    match t
    case Number(_) => 0
    case Text(s) => if s == "" then 1 else 0
    case Array(items) => EmptiesItems(items)
    case Dict(entries) => EmptiesEntries(entries)
  }

  function EmptiesItems(items: seq<Node>): nat {
    if items == [] then 0 else Empties(items[0]) + EmptiesItems(items[1..])
  }

  function EmptiesEntries(entries: seq<Entry>): nat {
    if entries == [] then 0
    else (if entries[0].key == "" then 1 else 0) + Empties(entries[0].value) + EmptiesEntries(entries[1..])
  }
}
