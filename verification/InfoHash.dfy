/** Canonical text, and the text a torrent's info-hash is taken of. */
module InfoHash {
  import opened Common
  import opened Numerals
  import opened Bencode
  import opened BencodeMaps
  import opened BencodeRoundTrip
  import opened BencodeStreams

  /** A strict decoder: numerals without superfluous characters, keys strictly ascending, and no
      empty strings. */
  function StrictNumber(x: string): (r: Parsed<int>)
    ensures r.Got? ==> |r.rest| < |x|
  {
    var negative := x != "" && x[0] == '-';
    var z := if negative then x[1..] else x;
    if !StartsWithDigit(z) || (z[0] == '0' && (negative || StartsWithDigit(z[1..]))) then Fail
    else
      var (v, rest) := Scan(z, 0);
      var m: int := v;
      var n := if negative then -m else m;
      if INT64_MIN <= n <= INT64_MAX then Got(n, rest) else Fail
  }

  function StrictText(x: string): (r: Parsed<string>)
    ensures r.Got? ==> |r.rest| < |x|
  {
    if !StartsWithDigit(x) || x[0] == '0' then Fail
    else
      var (v, rest) := Scan(x, 0);
      if v <= SIZE_MAX && v < |rest| && rest[0] == ':' then Got(rest[1..][..v], rest[1..][v..]) else Fail
  }

  function StrictNode(x: string): (r: Parsed<Node>)
    ensures r.Got? ==> |r.rest| < |x|
    decreases |x|, 1
  {
    if x == "" then Fail
    else if x[0] == 'i' then
      var n := StrictNumber(x[1..]);
      if n.Got? && n.rest != "" && n.rest[0] == 'e' then Got(Number(n.value), n.rest[1..]) else Fail
    else if x[0] == 'l' then
      var items := StrictItems(x[1..]);
      if items.Fail? then Fail else Got(Array(items.value), items.rest)
    else if x[0] == 'd' then
      var entries := StrictEntries(x[1..], "");
      if entries.Fail? then Fail else Got(Dict(entries.value), entries.rest)
    else
      var s := StrictText(x);
      if s.Fail? then Fail else Got(Text(s.value), s.rest)
  }

  function StrictItems(x: string): (r: Parsed<seq<Node>>)
    ensures r.Got? ==> |r.rest| < |x|
    decreases |x|, 2
  {
    if x == "" then Fail
    else if x[0] == 'e' then Got([], x[1..])
    else
      var item := StrictNode(x);
      if item.Fail? then Fail
      else
        var items := StrictItems(item.rest);
        if items.Fail? then Fail else Got([item.value] + items.value, items.rest)
  }

  /** Entries whose keys are above `below` and ascending. */
  function StrictEntries(x: string, below: string): (r: Parsed<seq<Entry>>)
    ensures r.Got? ==> |r.rest| < |x|
    decreases |x|, 2
  {
    if x == "" then Fail
    else if x[0] == 'e' then Got([], x[1..])
    else
      var key := StrictText(x);
      if key.Fail? || !Less(below, key.value) then Fail
      else
        var value := StrictNode(key.rest);
        if value.Fail? then Fail
        else
          var entries := StrictEntries(value.rest, key.value);
          if entries.Fail? then Fail
          else Got([Entry(key.value, value.value)] + entries.value, entries.rest)
  }

  predicate Above(below: string, entries: seq<Entry>) {
    forall i :: 0 <= i < |entries| ==> Less(below, entries[i].key)
  }

  lemma AboveTail(below: string, e: Entry, entries: seq<Entry>)
    requires Less(below, e.key) && Above(e.key, entries) && Ascending(entries)
    ensures Ascending([e] + entries) && Above(below, [e] + entries)
  {
    forall i | 0 <= i < |entries| ensures Less(below, entries[i].key) {
      LessTransitive(below, e.key, entries[i].key);
    }
  }

  lemma ScanHead(z: string)
    requires StartsWithDigit(z)
    ensures Scan(z, 0) == Scan(z[1..], DigitValue(z[0]))
  {
    hide IsDigit, DigitValue;
  }

  /** A numeral without a superfluous leading zero is the shortest one for its value. */
  lemma {:induction false} MinimalNumeral(z: string)
    requires StartsWithDigit(z) && (z[0] == '0' ==> !StartsWithDigit(z[1..]))
    ensures z == Digits(Scan(z, 0).0) + Scan(z, 0).1
    ensures z[0] != '0' ==> Scan(z, 0).0 > 0
  {
    hide Digits, Scan, IsDigit, DigitValue;
    ScanHead(z);
    assert z == [z[0]] + z[1..];
    ScanMinimal(z[0], z[1..]);
    OneDigit(z[0]);
    ScanGrows(z[1..], DigitValue(z[0]));
  }

  lemma StrictNumberIsNumeral(x: string)
    requires StrictNumber(x).Got?
    ensures x == Numeral(StrictNumber(x).value) + StrictNumber(x).rest
    ensures INT64_MIN <= StrictNumber(x).value <= INT64_MAX
  {
    hide Digits, Scan, IsDigit, DigitValue;
    if x[0] == '-' {
      var z := x[1..];
      MinimalNumeral(z);
      Regroup("-", Digits(Scan(z, 0).0), Scan(z, 0).1);
      assert x == "-" + z;
    } else {
      MinimalNumeral(x);
    }
  }

  lemma {:induction false} ScanGrows(x: string, value: nat)
    ensures Scan(x, value).0 >= value
    decreases |x|
  {
    hide IsDigit, DigitValue;
    if StartsWithDigit(x) {
      ScanGrows(x[1..], 10 * value + DigitValue(x[0]));
    }
  }

  lemma StrictTextIsCode(x: string)
    requires StrictText(x).Got?
    ensures x == TextCode(StrictText(x).value) + StrictText(x).rest
    ensures 0 < |StrictText(x).value| <= SIZE_MAX
  {
    hide Digits, Scan, IsDigit, DigitValue;
    MinimalNumeral(x);
    var (v, rest) := Scan(x, 0);
    var s, r := rest[1..][..v], rest[1..][v..];
    assert rest == ":" + (s + r);
    Regroup(Digits(v), ":", s);
    Regroup(Digits(v), ":" + s, r);
    Regroup(":", s, r);
  }

  /** What the strict decoder accepts is the text of its result. */
  lemma {:induction false} StrictIsCode(x: string)
    requires StrictNode(x).Got?
    ensures x == Code(StrictNode(x).value) + StrictNode(x).rest
    ensures WellFormed(StrictNode(x).value) && Empties(StrictNode(x).value) == 0
    decreases |x|, 1
  {
    hide StrictText, StrictNumber, Numeral, TextCode, Ascending;
    var (t, r) := (StrictNode(x).value, StrictNode(x).rest);
    assert x == [x[0]] + x[1..];
    if x[0] == 'i' {
      StrictNumberIsNumeral(x[1..]);
      var n := StrictNumber(x[1..]);
      assert n.rest == "e" + r;
      Regroup("i", Numeral(n.value), "e");
      Regroup("i", Numeral(n.value) + "e", r);
      Regroup(Numeral(n.value), "e", r);
    } else if x[0] == 'l' {
      StrictItemsAreCode(x[1..]);
      Regroup("l", ItemsCode(t.items), "e");
      Regroup("l", ItemsCode(t.items) + "e", r);
    } else if x[0] == 'd' {
      StrictEntriesAreCode(x[1..], "");
      Regroup("d", EntriesCode(t.entries), "e");
      Regroup("d", EntriesCode(t.entries) + "e", r);
    } else {
      StrictTextIsCode(x);
    }
  }

  lemma {:induction false} StrictItemsAreCode(x: string)
    requires StrictItems(x).Got?
    ensures var (items, r) := (StrictItems(x).value, StrictItems(x).rest);
      x == ItemsCode(items) + "e" + r && WellFormedItems(items) && EmptiesItems(items) == 0
    decreases |x|, 2
  {
    hide Code, WellFormed, Empties;
    if x[0] == 'e' {
      assert x == "e" + x[1..];
    } else {
      var item := StrictNode(x);
      StrictIsCode(x);
      StrictItemsAreCode(item.rest);
      var (items, r) := (StrictItems(item.rest).value, StrictItems(item.rest).rest);
      assert ([item.value] + items)[1..] == items;
      Regroup(Code(item.value), ItemsCode(items), "e");
      Regroup(Code(item.value), ItemsCode(items) + "e", r);
    }
  }

  lemma {:induction false} StrictEntriesAreCode(x: string, below: string)
    requires StrictEntries(x, below).Got?
    ensures var (es, r) := (StrictEntries(x, below).value, StrictEntries(x, below).rest);
      && x == EntriesCode(es) + "e" + r && WellFormedEntries(es) && EmptiesEntries(es) == 0
      && Ascending(es) && Above(below, es)
    decreases |x|, 2
  {
    hide Code, WellFormed, Empties, StrictText, TextCode, Ascending, Above;
    if x[0] == 'e' {
      assert x == "e" + x[1..];
      NothingAbove(below);
    } else {
      var key := StrictText(x);
      var value := StrictNode(key.rest);
      StrictTextIsCode(x);
      StrictIsCode(key.rest);
      StrictEntriesAreCode(value.rest, key.value);
      var (es, r) := (StrictEntries(value.rest, key.value).value, StrictEntries(value.rest, key.value).rest);
      var e := Entry(key.value, value.value);
      AboveTail(below, e, es);
      assert ([e] + es)[1..] == es;
      Regroup(TextCode(e.key) + Code(e.value), EntriesCode(es), "e");
      Regroup(TextCode(e.key) + Code(e.value), EntriesCode(es) + "e", r);
      Regroup(TextCode(e.key), Code(e.value), EntriesCode(es) + "e" + r);
    }
  }

  lemma NothingAbove(below: string)
    ensures Ascending([]) && Above(below, [])
  {
  }

  lemma {:induction false} DigitsLead(n: nat)
    ensures Digits(n)[0] == '0' <==> n == 0
  {
    hide IsDigit;
    if n >= 10 {
      DigitsLead(n / 10);
    }
  }

  lemma NumeralIsStrict(n: int, rest: string)
    requires INT64_MIN <= n <= INT64_MAX && !StartsWithDigit(rest)
    ensures StrictNumber(Numeral(n) + rest) == Got(n, rest)
  {
    hide StartsWithDigit, Scan;
    var m: nat := if n < 0 then -n else n;
    var z := Digits(m) + rest;
    ScanNumeral(m, rest);
    DigitsAreNoSpace(z);
    DigitsLead(m);
    assert m == 0 ==> z[1..] == rest;
    if n < 0 {
      Regroup("-", Digits(m), rest);
      Rest('-', z);
    }
  }

  lemma TextIsStrict(s: string, rest: string)
    requires 0 < |s| <= SIZE_MAX
    ensures StrictText(TextCode(s) + rest) == Got(s, rest)
  {
    hide Scan;
    Regroup(Digits(|s|), ":", s);
    Regroup(Digits(|s|), ":" + s, rest);
    Regroup(":", s, rest);
    ScanNumeral(|s|, ":" + (s + rest));
    DigitsLead(|s|);
    Rest(':', s + rest);
    assert (s + rest)[..|s|] == s && (s + rest)[|s|..] == rest;
  }

  lemma {:induction false} CodeIsStrict(t: Node, rest: string)
    requires WellFormed(t) && Empties(t) == 0
    ensures StrictNode(Code(t) + rest) == Got(t, rest)
    decreases t, 1
  {
    hide Digits, StrictText, StrictNumber, TextCode, Numeral, Above;
    CodeLeads(t, rest);
    match t
    case Number(n) =>
      Regroup("i", Numeral(n), "e");
      Regroup("i", Numeral(n) + "e", rest);
      Regroup(Numeral(n), "e", rest);
      Rest('i', Numeral(n) + ("e" + rest));
      NumeralIsStrict(n, "e" + rest);
      Rest('e', rest);
    case Text(s) => TextIsStrict(s, rest);
    case Array(items) =>
      ItemsAreStrict(items, rest);
      Regroup("l", ItemsCode(items) + "e", rest);
      Rest('l', ItemsCode(items) + "e" + rest);
      Regroup("l", ItemsCode(items), "e");
    case Dict(entries) =>
      AboveEmpty(entries);
      EntriesAreStrict(entries, "", rest);
      Regroup("d", EntriesCode(entries) + "e", rest);
      Rest('d', EntriesCode(entries) + "e" + rest);
      Regroup("d", EntriesCode(entries), "e");
  }

  lemma {:induction false} AboveEmpty(entries: seq<Entry>)
    requires EmptiesEntries(entries) == 0
    ensures Above("", entries)
  {
    hide Empties;
    if entries != [] {
      AboveEmpty(entries[1..]);
      assert forall i :: 1 <= i < |entries| ==> entries[i] == entries[1..][i - 1];
    }
  }

  lemma {:induction false} ItemsAreStrict(items: seq<Node>, rest: string)
    requires WellFormedItems(items) && EmptiesItems(items) == 0
    ensures StrictItems(ItemsCode(items) + "e" + rest) == Got(items, rest)
    decreases items, 0
  {
    hide StrictNode, Code, WellFormed, Empties;
    if items == [] {
      Rest('e', rest);
    } else {
      var tail := ItemsCode(items[1..]) + "e" + rest;
      CodeIsStrict(items[0], tail);
      ItemsAreStrict(items[1..], rest);
      CodeLeads(items[0], tail);
      Regroup(Code(items[0]), ItemsCode(items[1..]), "e");
      Regroup(Code(items[0]), ItemsCode(items[1..]) + "e", rest);
      assert [items[0]] + items[1..] == items;
    }
  }

  lemma {:induction false} EntriesAreStrict(entries: seq<Entry>, below: string, rest: string)
    requires WellFormedEntries(entries) && EmptiesEntries(entries) == 0
    requires Ascending(entries) && Above(below, entries)
    ensures StrictEntries(EntriesCode(entries) + "e" + rest, below) == Got(entries, rest)
    decreases entries, 0
  {
    hide StrictNode, StrictText, Code, TextCode, WellFormed, Empties;
    if entries == [] {
      Rest('e', rest);
    } else {
      var e := entries[0];
      var tail := EntriesCode(entries[1..]) + "e" + rest;
      CodeIsStrict(e.value, tail);
      EntriesAreStrict(entries[1..], e.key, rest);
      TextIsStrict(e.key, Code(e.value) + tail);
      CodeLeads(Text(e.key), Code(e.value) + tail);
      CodeOfText(e.key);
      Regroup(TextCode(e.key) + Code(e.value), EntriesCode(entries[1..]), "e");
      Regroup(TextCode(e.key) + Code(e.value), EntriesCode(entries[1..]) + "e", rest);
      Regroup(TextCode(e.key), Code(e.value), tail);
      assert [e] + entries[1..] == entries;
    }
  }

  /** Printing what was loaded gives back the text it was loaded from exactly if that text is
      canonical, or the code of an empty string and nothing else. */
  lemma ReprintsCanonicalText(x: string)
    requires LoadNode(x, 1).Got?
    ensures x == Code(LoadNode(x, 1).value) + LoadNode(x, 1).rest <==> StrictNode(x).Got? || x == "0:"
  {
    hide WellFormed, Code, Empties, LoadNode, StrictNode;
    var (t, rest) := (LoadNode(x, 1).value, LoadNode(x, 1).rest);
    if StrictNode(x).Got? {
      var strict := StrictNode(x);
      StrictIsCode(x);
      RoundTrip(strict.value, strict.rest, 1);
    }
    LoneEmpty();
    CodeOfEmpty();
    if x == Code(t) + rest {
      CodeLeads(t, rest);
      LoadedIsWellFormed(x, 1);
      RoundTripExactly(t, rest);
      if Empties(t) == 0 {
        CodeIsStrict(t, rest);
      } else {
        assert x == "0:" + "";
      }
    }
  }

  lemma CodeOfEmpty()
    ensures Code(Text("")) == "0:" && "0:" + "" == "0:"
  {
  }

  /** `dict[key]` on a tree that is changed if need be: a missing entry is a zero. */
  function Indexed(t: Node, key: string): Node {
    if t.Dict? && Lookup(t.entries, key).Some? then Lookup(t.entries, key).value else Number(0)
  }

  /** Where the text of the value of the first entry with the given key starts, and what is left
      after it, in the text of a dictionary's entries. */
  function ValueAt(x: string, key: string): (r: Parsed<string>)
    decreases |x|
  {
    if x == "" || x[0] == 'e' then Fail
    else
      var k := LoadStr(x, 1);
      if k.Fail? then Fail
      else
        var value := LoadNode(k.rest, 1);
        if value.Fail? then Fail
        else if k.value == key then Got(k.rest, value.rest)
        else ValueAt(value.rest, key)
  }

  /** The value in the tree is the one loaded there. */
  lemma {:induction false} ValueIsLoaded(x: string, key: string)
    requires LoadPairs(x, 1).Got?
    ensures var at := ValueAt(x, key); var found := Lookup(LoadPairs(x, 1).value, key);
      if at.Fail? then found == None
      else at.value != "" && at.rest != "" && found.Some? && LoadNode(at.value, 1) == Got(found.value, at.rest)
    decreases |x|
  {
    hide LoadStr, LoadNode;
    if x[0] != 'e' {
      var k := LoadStr(x, 1);
      var value := LoadNode(k.rest, 1);
      LoadShortens(x, k.rest);
      ValueIsLoaded(value.rest, key);
      var pairs := LoadPairs(value.rest, 1).value;
      assert ([Entry(k.value, value.value)] + pairs)[1..] == pairs;
    }
  }

  lemma LoadShortens(x: string, y: string)
    ensures LoadStr(x, 1).Got? ==> |LoadStr(x, 1).rest| < |x|
    ensures LoadNode(y, 1).Got? ==> |LoadNode(y, 1).rest| <= |y|
  {
  }

  /** Where the value of the `info` entry starts and ends, if the file is a dictionary with one. */
  function InfoAt(file: string): Parsed<string> {
    if file != "" && file[0] in ['d', CHAR_MINUS_ONE] then ValueAt(file[1..], "info") else Fail
  }

  /** The text hashed for a torrent file is the text of the file's `info` entry exactly if that
      text is canonical; without such an entry it is the code of zero. */
  lemma {:induction false} InfoHashedText(file: string)
    requires LoadNode(file, 1).Got?
    ensures var info := Code(Indexed(LoadNode(file, 1).value, "info")); var at := InfoAt(file);
      if at.Fail? then info == "i0e"
      else at.value == info + at.rest <==> StrictNode(at.value).Got?
  {
    hide WellFormed, StrictNode, ValueAt, Code, LoadPairs, LoadItems, LoadNumber, LoadStr;
    CodeOfZero();
    EmptyIsWellFormed();
    if file != "" && file[0] in ['d', CHAR_MINUS_ONE] {
      ValueIsLoaded(file[1..], "info");
      LookupCollected([], LoadPairs(file[1..], 1).value, "info");
      var at := ValueAt(file[1..], "info");
      if at.Got? {
        LoneEmpty();
        CodeOfEmpty();
        ReprintsCanonicalText(at.value);
      }
    } else if file != "" {
      LoadsNoDict(file);
    }
  }

  lemma LoadsNoDict(x: string)
    requires x != "" && x[0] !in ['d', CHAR_MINUS_ONE] && LoadNode(x, 1).Got?
    ensures !LoadNode(x, 1).value.Dict?
  {
  }

  /** A file whose `info` is the number 1 with a leading zero: the hash is taken of other text. */
  lemma OtherTextHashed()
    ensures var file := "d4:infoi01ee";
      && LoadNode(file, 1).Got? && InfoAt(file) == Got("i01ee", "e")
      && Code(Indexed(LoadNode(file, 1).value, "info")) == "i1e"
  {
    hide Code, LoadPairs, LoadStr, LoadItems, LoadNumber, ValueAt, Collected;
    var file := "d4:infoi01ee";
    assert file[1..] == "4:infoi01ee";
    OnePairLoads();
    LookupCollected([], [Entry("info", Number(1))], "info");
    EmptyIsWellFormed();
    CodeOfOne();
  }

  lemma OnePairLoads()
    ensures LoadPairs("4:infoi01ee", 1) == Got([Entry("info", Number(1))], "")
    ensures ValueAt("4:infoi01ee", "info") == Got("i01ee", "e")
  {
    hide LoadStr, LoadNode;
    InfoKeyLoads();
    OneLoads();
    assert "e"[1..] == "" && LoadPairs("e", 1) == Got([], "");
    assert [Entry("info", Number(1))] + [] == [Entry("info", Number(1))];
    assert "4:infoi01ee"[0] == '4';
  }

  lemma InfoKeyLoads()
    ensures LoadStr("4:infoi01ee", 1) == Got("info", "i01ee")
  {
    assert Digits(4) == "4" && TextCode("info") == "4" + ":" + "info";
    assert TextCode("info") + "i01ee" == "4:infoi01ee";
    LoadStrOfCode("info", "i01ee", 1);
  }

  lemma OneLoads()
    ensures LoadNode("i01ee", 1) == Got(Number(1), "e")
  {
    assert Drop("i01ee", 1) == "01ee" && SkipSpace("01ee") == "01ee";
    assert "01ee"[1..] == "1ee" && "1ee"[1..] == "ee";
    assert Scan("01ee", 0) == Scan("1ee", 0) == Scan("ee", 1) == (1, "ee");
    assert Drop("ee", 1) == "e";
  }

  /** A file whose `info` has the given entries, in whatever order they stand there. */
  function InfoFile(entries: seq<Entry>): string {
    "d" + (TextCode("info") + ("d" + EntriesCode(entries) + "e" + "e"))
  }

  /** What is hashed of such a file has the entries as the map orders them. */
  lemma InfoEntriesHashed(entries: seq<Entry>)
    requires WellFormedEntries(entries) && EmptiesEntries(entries) == 0
    ensures LoadNode(InfoFile(entries), 1) == Got(Dict([Entry("info", Dict(Collected([], entries)))]), "")
    ensures InfoAt(InfoFile(entries)) == Got("d" + EntriesCode(entries) + "e" + "e", "e")
  {
    hide TextCode, Code, Collected, WellFormed, Empties, LoadStr, LoadItems, LoadNumber, LoadPairs, ValueAt;
    var info := "d" + EntriesCode(entries) + "e" + "e";
    var x := TextCode("info") + info;
    Rest('d', x);
    LoadEntries(entries, "e");
    LoadStrOfCode("info", info, 1);
    CodeLeads(Text("info"), info);
    CodeOfText("info");
    InfoPair(x, info, Dict(Collected([], entries)));
    CollectedOne(Entry("info", Dict(Collected([], entries))));
  }

  lemma CollectedOne(e: Entry)
    ensures Collected([], [e]) == [e]
  {
    assert [e][1..] == [];
  }

  lemma LoadEntries(entries: seq<Entry>, rest: string)
    requires WellFormedEntries(entries) && EmptiesEntries(entries) == 0
    ensures LoadNode("d" + EntriesCode(entries) + "e" + rest, 1) == Got(Dict(Collected([], entries)), rest)
  {
    hide LoadPairs, Collected, WellFormed, Empties, LoadStr, LoadItems, LoadNumber, EntriesCode;
    RoundTripEntries(entries, rest, 1);
    Regroup("d", EntriesCode(entries), "e");
    Regroup("d", EntriesCode(entries) + "e", rest);
    Rest('d', EntriesCode(entries) + "e" + rest);
  }

  lemma InfoPair(x: string, info: string, value: Node)
    requires x != "" && x[0] != 'e' && LoadStr(x, 1) == Got("info", info)
    requires LoadNode(info, 1) == Got(value, "e")
    ensures LoadPairs(x, 1) == Got([Entry("info", value)], "")
    ensures ValueAt(x, "info") == Got(info, "e")
  {
    hide LoadStr, LoadNode;
    assert "e"[1..] == "" && LoadPairs("e", 1) == Got([], "");
    assert [Entry("info", value)] + [] == [Entry("info", value)];
  }

  /** `length` before `name`: the text of `info` is accepted and is the one that is hashed. */
  lemma SortedInfoHashed()
    ensures var file, info := "d4:infod6:lengthi1e4:name1:aee", "d6:lengthi1e4:name1:ae";
      && LoadNode(file, 1).Got? && InfoAt(file) == Got(info + "e", "e") && StrictNode(info + "e").Got?
      && Code(Indexed(LoadNode(file, 1).value, "info")) == info
  {
    hide LoadNode, StrictNode, WellFormed, Empties, Collected, InfoAt;
    TwoEntries();
    TwoFiles();
    TwoEntriesInOrder();
    InfoEntriesHashed([LENGTH, NAME]);
    CodeIsStrict(Dict([LENGTH, NAME]), "e");
    assert Lookup([Entry("info", Dict([LENGTH, NAME]))], "info") == Some(Dict([LENGTH, NAME]));
  }

  /** `name` before `length`: the entries are hashed in the order of their keys. */
  lemma UnsortedInfoHashed()
    ensures var file, info := "d4:infod4:name1:a6:lengthi1eee", "d4:name1:a6:lengthi1ee";
      && LoadNode(file, 1).Got? && InfoAt(file) == Got(info + "e", "e") && StrictNode(info + "e").Fail?
      && Code(Indexed(LoadNode(file, 1).value, "info")) == "d6:lengthi1e4:name1:ae"
  {
    hide LoadNode, StrictNode, WellFormed, Empties, Collected, InfoAt;
    TwoEntries();
    TwoFiles();
    TwoEntriesInOrder();
    InfoEntriesHashed([NAME, LENGTH]);
    var file := InfoFile([NAME, LENGTH]);
    assert "d4:name1:a6:lengthi1ee" + "e" == "d4:name1:a6:lengthi1eee";
    assert Lookup([Entry("info", Dict([LENGTH, NAME]))], "info") == Some(Dict([LENGTH, NAME]));
    InfoHashedText(file);
    assert "d4:name1:a6:lengthi1eee"[1] != ("d6:lengthi1e4:name1:ae" + "e")[1];
  }

  const LENGTH := Entry("length", Number(1))
  const NAME := Entry("name", Text("a"))

  lemma EntryTexts()
    ensures TextCode("length") == "6:length" && TextCode("name") == "4:name" && TextCode("info") == "4:info"
    ensures Code(LENGTH.value) == "i1e" && Code(NAME.value) == "1:a"
  {
    assert TextCode("a") == "1:a";
  }

  lemma TwoEntryCodes()
    ensures EntriesCode([LENGTH, NAME]) == "6:lengthi1e4:name1:a"
    ensures EntriesCode([NAME, LENGTH]) == "4:name1:a6:lengthi1e"
  {
    hide TextCode, Code;
    EntryTexts();
    assert [LENGTH, NAME][1..] == [NAME] && [NAME, LENGTH][1..] == [LENGTH] && [NAME][1..] == [LENGTH][1..] == [];
    assert EntriesCode([NAME]) == "4:name" + "1:a" + "" == "4:name1:a";
    assert EntriesCode([LENGTH]) == "6:length" + "i1e" + "" == "6:lengthi1e";
    assert "6:length" + "i1e" + "4:name1:a" == "6:lengthi1e4:name1:a";
    assert "4:name" + "1:a" + "6:lengthi1e" == "4:name1:a6:lengthi1e";
  }

  lemma TwoAreWellFormed(e: Entry, f: Entry)
    requires 0 < |e.key| <= SIZE_MAX && 0 < |f.key| <= SIZE_MAX && WellFormed(e.value) && WellFormed(f.value)
    requires Empties(e.value) == Empties(f.value) == 0
    ensures WellFormedEntries([e, f]) && EmptiesEntries([e, f]) == 0
  {
    hide WellFormed, Empties;
    assert [e, f][1..] == [f] && [f][1..] == [];
    assert WellFormedEntries([]) && EmptiesEntries([]) == 0;
    assert WellFormedEntries([f]) && EmptiesEntries([f]) == 0;
  }

  lemma TwoCollected(e: Entry, f: Entry)
    requires Less(e.key, f.key)
    ensures Collected([], [e, f]) == Collected([], [f, e]) == [e, f]
    ensures Ascending([e, f])
  {
    LessStrict(e.key, f.key);
    hide Less;
    assert [e, f][1..] == [f] && [f, e][1..] == [e] && [e][1..] == [f][1..] == [];
    assert Emplace([], e) == [e] && Emplace([], f) == [f];
    assert Emplace([e], f) == [e] + Emplace([], f) == [e, f];
    assert Emplace([f], e) == [e] + [f] == [e, f];
    assert Collected([e, f], []) == [e, f];
    assert Collected([e], [f]) == [e, f] && Collected([f], [e]) == [e, f];
  }

  lemma TwoEntriesInOrder()
    ensures Collected([], [NAME, LENGTH]) == Collected([], [LENGTH, NAME]) == [LENGTH, NAME]
    ensures WellFormedEntries([LENGTH, NAME]) && EmptiesEntries([LENGTH, NAME]) == 0
    ensures WellFormedEntries([NAME, LENGTH]) && EmptiesEntries([NAME, LENGTH]) == 0
    ensures WellFormed(Dict([LENGTH, NAME])) && Empties(Dict([LENGTH, NAME])) == 0
  {
    hide WellFormedEntries, EmptiesEntries, Collected, Ascending;
    TwoAreWellFormed(LENGTH, NAME);
    TwoAreWellFormed(NAME, LENGTH);
    assert Less("length", "name");
    TwoCollected(LENGTH, NAME);
  }

  lemma TwoEntries()
    ensures Code(Dict([LENGTH, NAME])) == "d6:lengthi1e4:name1:ae"
    ensures "d" + EntriesCode([LENGTH, NAME]) + "e" + "e" == "d6:lengthi1e4:name1:aee"
    ensures "d" + EntriesCode([NAME, LENGTH]) + "e" + "e" == "d4:name1:a6:lengthi1eee"
  {
    hide TextCode, EntriesCode;
    TwoEntryCodes();
    SortedInfo();
    UnsortedInfo();
  }

  lemma SortedInfo()
    ensures "d" + "6:lengthi1e4:name1:a" + "e" == "d6:lengthi1e4:name1:ae"
    ensures "d6:lengthi1e4:name1:ae" + "e" == "d6:lengthi1e4:name1:aee"
  {
    assert "d" + "6:lengthi1e4:name1:a" == "d6:lengthi1e4:name1:a";
  }

  lemma UnsortedInfo()
    ensures "d" + "4:name1:a6:lengthi1e" + "e" + "e" == "d4:name1:a6:lengthi1eee"
  {
    assert "d" + "4:name1:a6:lengthi1e" == "d4:name1:a6:lengthi1e";
  }

  lemma TwoFiles()
    ensures InfoFile([LENGTH, NAME]) == "d4:infod6:lengthi1e4:name1:aee"
    ensures InfoFile([NAME, LENGTH]) == "d4:infod4:name1:a6:lengthi1eee"
  {
    hide TextCode, EntriesCode;
    EntryTexts();
    TwoEntries();
    SortedFile();
    UnsortedFile();
  }

  lemma SortedFile()
    ensures "d" + ("4:info" + "d6:lengthi1e4:name1:aee") == "d4:infod6:lengthi1e4:name1:aee"
  {
  }

  lemma UnsortedFile()
    ensures "d" + ("4:info" + "d4:name1:a6:lengthi1eee") == "d4:infod4:name1:a6:lengthi1eee"
  {
  }

  lemma CodeOfOne()
    ensures Code(Number(1)) == "i1e"
  {
  }

  lemma CodeOfZero()
    ensures Code(Number(0)) == "i0e"
  {
  }

  /** What the constructor of a torrent hashes, given the bytes of its file. */
  method HashedText(file: string) returns (text: Option<string>)
    ensures text == if LoadNode(file, 1).Fail? then None
                    else Some(Code(Indexed(LoadNode(file, 1).value, "info")))
  {
    hide LoadNode, Code, Indexed;
    var input := new Input(file);
    var doc := input.LoadNode();
    if doc.None? {
      return None;
    }
    var out := new Output();
    out.MakeSerialize(Indexed(doc.value, "info"));
    assert "" + Code(Indexed(doc.value, "info")) == Code(Indexed(doc.value, "info"));
    return Some(out.text);
  }
}
