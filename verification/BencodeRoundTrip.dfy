/** Loading what was printed, and how much text any loaded tree has used up. */
module BencodeRoundTrip {
  import opened Common
  import opened Numerals
  import opened Bencode
  import opened BencodeMaps

  lemma Leading(a: string, x: string)
    requires a != ""
    ensures (a + x)[0] == a[0]
    ensures StartsWithDigit(a) ==> StartsWithDigit(a + x)
  {
  }

  lemma Rest(c: char, x: string)
    ensures ([c] + x)[0] == c && ([c] + x)[1..] == x && Drop([c] + x, 1) == x
  {
  }

  lemma NoSpace(x: string)
    requires x != "" && !IsSpace(x[0])
    ensures SkipSpace(x) == x
  {
  }

  lemma ScanStops(x: string, value: nat)
    requires !StartsWithDigit(x)
    ensures Scan(x, value) == (value, x)
  {
  }

  /** A numeral reads back from in front of anything but a digit. */
  lemma ScanNumeral(n: nat, rest: string)
    requires !StartsWithDigit(rest)
    ensures Scan(Digits(n) + rest, 0) == (n, rest)
    ensures StartsWithDigit(Digits(n) + rest)
  {
    hide Scan, StartsWithDigit;
    ScanDigits(n, rest);
    ScanStops(rest, n);
    Leading(Digits(n), rest);
  }

  lemma DigitsAreNoSpace(x: string)
    requires StartsWithDigit(x)
    ensures SkipSpace(x) == x && x[0] != '-' && x[0] != '+'
    ensures x[0] != 'i' && x[0] != 'l' && x[0] != 'd' && x[0] != 'e' && x[0] != CHAR_MINUS_ONE
  {
  }

  lemma ReadSizeOfDigits(n: nat, rest: string)
    requires n <= SIZE_MAX && !StartsWithDigit(rest)
    ensures ReadSize(Digits(n) + rest) == Got(n, rest)
  {
    hide StartsWithDigit, SkipSpace, Scan, Digits;
    ScanNumeral(n, rest);
    DigitsAreNoSpace(Digits(n) + rest);
  }

  lemma ReadSignedOfNumeral(n: int, rest: string)
    requires !StartsWithDigit(rest)
    ensures ReadSigned(Numeral(n) + rest) == if INT64_MIN <= n <= INT64_MAX then Got(n, rest) else Fail
  {
    hide StartsWithDigit, SkipSpace, Scan, Digits;
    var m: nat := if n < 0 then -n else n;
    var z := Digits(m) + rest;
    ScanNumeral(m, rest);
    DigitsAreNoSpace(z);
    if n < 0 {
      Regroup("-", Digits(m), rest);
      Rest('-', z);
      NoSpace(['-'] + z);
    }
  }

  lemma LoadStrOfCode(s: string, rest: string, gap: nat)
    requires |s| <= SIZE_MAX && (gap == 0 || s != "")
    ensures LoadStr(TextCode(s) + rest, gap) == Got(s, rest)
  {
    hide ReadSize, Digits;
    Regroup(Digits(|s|), ":", s);
    Regroup(Digits(|s|), ":" + s, rest);
    Regroup(":", s, rest);
    ReadSizeOfDigits(|s|, ":" + (s + rest));
    Rest(':', s + rest);
    assert (s + rest)[..|s|] == s && (s + rest)[|s|..] == rest;
  }

  lemma LoadNumberOfCode(n: int, rest: string)
    ensures LoadNumber("i" + Numeral(n) + "e" + rest) ==
            if INT64_MIN <= n <= INT64_MAX then Got(Number(n), rest) else Fail
  {
    hide ReadSigned, Numeral;
    Regroup("i", Numeral(n), "e");
    Regroup("i", Numeral(n) + "e", rest);
    Regroup(Numeral(n), "e", rest);
    Rest('i', Numeral(n) + ("e" + rest));
    ReadSignedOfNumeral(n, "e" + rest);
    Rest('e', rest);
  }

  /** A printed number loads exactly if 64 bits hold it. */
  lemma NumbersThatLoad(n: int, rest: string, gap: nat)
    ensures LoadNode("i" + Numeral(n) + "e" + rest, gap) ==
            if -9223372036854775808 <= n <= 9223372036854775807 then Got(Number(n), rest) else Fail
  {
    hide LoadNumber, Numeral, LoadItems, LoadPairs, LoadStr;
    LoadNumberOfCode(n, rest);
    assert ("i" + Numeral(n) + "e" + rest)[0] == 'i';
  }

  /** The first character of a printed tree selects the loader that reads it. */
  lemma CodeLeads(t: Node, rest: string)
    ensures var x := Code(t) + rest; x != "" && x[0] != 'e' && x[0] != CHAR_MINUS_ONE
    ensures var x := Code(t) + rest;
      match t
      case Number(_) => x[0] == 'i'
      case Text(_) => x[0] != 'i' && x[0] != 'l' && x[0] != 'd'
      case Array(_) => x[0] == 'l'
      case Dict(_) => x[0] == 'd'
  {
    hide StartsWithDigit;
    Leading(Code(t), rest);
    if t.Text? {
      Leading(Digits(|t.s|), ":" + t.s);
      Regroup(Digits(|t.s|), ":", t.s);
      DigitsAreNoSpace(Code(t));
    }
  }

  predicate Plain(empties: nat, gap: nat) {
    gap == 0 || empties == 0
  }

  lemma {:induction false} RoundTrip(t: Node, rest: string, gap: nat)
    requires WellFormed(t) && Plain(Empties(t), gap)
    ensures LoadNode(Code(t) + rest, gap) == Got(t, rest)
    decreases t, 1
  {
    hide Digits, LoadStr, LoadNumber, TextCode, Numeral;
    CodeLeads(t, rest);
    match t
    case Number(n) => LoadNumberOfCode(n, rest);
    case Text(s) => LoadStrOfCode(s, rest, gap);
    case Array(items) =>
      RoundTripItems(items, rest, gap);
      Regroup("l", ItemsCode(items) + "e", rest);
      Rest('l', ItemsCode(items) + "e" + rest);
      Regroup("l", ItemsCode(items), "e");
    case Dict(entries) =>
      RoundTripEntries(entries, rest, gap);
      Regroup("d", EntriesCode(entries) + "e", rest);
      Rest('d', EntriesCode(entries) + "e" + rest);
      Regroup("d", EntriesCode(entries), "e");
      CollectedAscending([], entries);
      assert [] + entries == entries;
  }

  lemma {:induction false} RoundTripItems(items: seq<Node>, rest: string, gap: nat)
    requires WellFormedItems(items) && Plain(EmptiesItems(items), gap)
    ensures LoadItems(ItemsCode(items) + "e" + rest, gap) == Got(items, rest)
    decreases items, 0
  {
    hide LoadNode, Code, WellFormed, Empties;
    if items == [] {
      Rest('e', rest);
    } else {
      var tail := ItemsCode(items[1..]) + "e" + rest;
      RoundTrip(items[0], tail, gap);
      RoundTripItems(items[1..], rest, gap);
      CodeLeads(items[0], tail);
      Regroup(Code(items[0]), ItemsCode(items[1..]), "e");
      Regroup(Code(items[0]), ItemsCode(items[1..]) + "e", rest);
      assert [items[0]] + items[1..] == items;
    }
  }

  lemma {:induction false} RoundTripEntries(entries: seq<Entry>, rest: string, gap: nat)
    requires WellFormedEntries(entries) && Plain(EmptiesEntries(entries), gap)
    ensures LoadPairs(EntriesCode(entries) + "e" + rest, gap) == Got(entries, rest)
    decreases entries, 0
  {
    hide LoadNode, LoadStr, Code, TextCode, WellFormed, Empties;
    if entries == [] {
      Rest('e', rest);
    } else {
      var e := entries[0];
      var tail := EntriesCode(entries[1..]) + "e" + rest;
      RoundTrip(e.value, tail, gap);
      RoundTripEntries(entries[1..], rest, gap);
      LoadStrOfCode(e.key, Code(e.value) + tail, gap);
      CodeLeads(Text(e.key), Code(e.value) + tail);
      CodeOfText(e.key);
      Regroup(TextCode(e.key) + Code(e.value), EntriesCode(entries[1..]), "e");
      Regroup(TextCode(e.key) + Code(e.value), EntriesCode(entries[1..]) + "e", rest);
      Regroup(TextCode(e.key), Code(e.value), tail);
      assert [e] + entries[1..] == entries;
    }
  }

  lemma CodeOfText(s: string)
    ensures Code(Text(s)) == TextCode(s)
  {
  }

  // ----- what any text loads to

  lemma LoadStrWellFormed(x: string, gap: nat)
    requires LoadStr(x, gap).Got?
    ensures |LoadStr(x, gap).value| <= SIZE_MAX
  {
  }

  /** Whatever was loaded is a tree that the library can hold. */
  lemma {:induction false} LoadedIsWellFormed(x: string, gap: nat)
    requires LoadNode(x, gap).Got?
    ensures WellFormed(LoadNode(x, gap).value)
    decreases |x|, 1
  {
    hide LoadStr, Ascending, WellFormedItems, WellFormedEntries, Collected;
    if x == "" {
      EmptyIsWellFormed();
    } else if x[0] == 'i' {
    } else if x[0] == 'l' {
      LoadedItemsAreWellFormed(x[1..], gap);
    } else if x[0] == 'd' || x[0] == CHAR_MINUS_ONE {
      LoadedPairsAreWellFormed(x[1..], gap);
      EmptyIsWellFormed();
      CollectedIsAscending([], LoadPairs(x[1..], gap).value);
    } else {
      LoadStrWellFormed(x, gap);
    }
  }

  lemma EmptyIsWellFormed()
    ensures Ascending([]) && WellFormedEntries([])
  {
  }

  lemma {:induction false} LoadedItemsAreWellFormed(x: string, gap: nat)
    requires LoadItems(x, gap).Got?
    ensures WellFormedItems(LoadItems(x, gap).value)
    decreases |x|, 2
  {
    hide WellFormed;
    if x[0] != 'e' {
      var item := LoadNode(x, gap);
      LoadedIsWellFormed(x, gap);
      LoadedItemsAreWellFormed(item.rest, gap);
      var items := LoadItems(item.rest, gap).value;
      assert ([item.value] + items)[1..] == items;
    }
  }

  lemma {:induction false} LoadedPairsAreWellFormed(x: string, gap: nat)
    requires LoadPairs(x, gap).Got?
    ensures WellFormedEntries(LoadPairs(x, gap).value)
    decreases |x|, 2
  {
    hide WellFormed;
    if x[0] != 'e' {
      var key := LoadStr(x, gap);
      var value := LoadNode(key.rest, gap);
      LoadStrWellFormed(x, gap);
      LoadedIsWellFormed(key.rest, gap);
      LoadedPairsAreWellFormed(value.rest, gap);
      var pairs := LoadPairs(value.rest, gap).value;
      assert ([Entry(key.value, value.value)] + pairs)[1..] == pairs;
    }
  }

  // ----- how much text a tree costs

  function TextWeight(s: string): nat {
    |TextCode(s)| + if s == "" then 1 else 0
  }

  function Weight(t: Node): nat {
    |Code(t)| + Empties(t)
  }

  function ItemsWeight(items: seq<Node>): nat {
    if items == [] then 0 else Weight(items[0]) + ItemsWeight(items[1..])
  }

  function EntriesWeight(entries: seq<Entry>): nat {
    if entries == [] then 0
    else TextWeight(entries[0].key) + Weight(entries[0].value) + EntriesWeight(entries[1..])
  }

  lemma {:induction false} ItemsWeigh(items: seq<Node>)
    ensures ItemsWeight(items) == |ItemsCode(items)| + EmptiesItems(items)
  {
    hide Code, Empties;
    if items != [] {
      ItemsWeigh(items[1..]);
    }
  }

  lemma {:induction false} EntriesWeigh(entries: seq<Entry>)
    ensures EntriesWeight(entries) == |EntriesCode(entries)| + EmptiesEntries(entries)
  {
    hide Code, Empties, TextCode;
    if entries != [] {
      EntriesWeigh(entries[1..]);
    }
  }

  lemma {:induction false} CollectedWeighs(m: seq<Entry>, pairs: seq<Entry>)
    ensures EntriesWeight(Collected(m, pairs)) <= EntriesWeight(m) + EntriesWeight(pairs)
    decreases pairs
  {
    hide Weight, TextWeight, Emplace;
    if pairs != [] {
      EmplacedWeighs(m, pairs[0]);
      CollectedWeighs(Emplace(m, pairs[0]), pairs[1..]);
    }
  }

  lemma {:induction false} EmplacedWeighs(m: seq<Entry>, e: Entry)
    ensures EntriesWeight(Emplace(m, e)) <= EntriesWeight(m) + TextWeight(e.key) + Weight(e.value)
  {
    hide Weight, TextWeight, Less;
    if m != [] {
      EmplacedWeighs(m[1..], e);
      assert ([m[0]] + Emplace(m[1..], e))[1..] == Emplace(m[1..], e);
      assert ([e] + m)[1..] == m;
    }
  }

  lemma {:induction false} SkipSpaceShortens(x: string)
    ensures |SkipSpace(x)| <= |x|
  {
  }

  lemma ScanConsumes(z: string)
    requires StartsWithDigit(z)
    ensures |Digits(Scan(z, 0).0)| + |Scan(z, 0).1| <= |z|
  {
    hide Digits, IsDigit, DigitValue;
    ScanShortest(z[1..], DigitValue(z[0]));
    OneDigit(z[0]);
  }

  lemma ReadSizeConsumes(x: string)
    requires ReadSize(x).Got?
    ensures |Digits(ReadSize(x).value)| + |ReadSize(x).rest| <= |x|
  {
    hide Digits, Scan, StartsWithDigit, SkipSpace;
    var y := SkipSpace(x);
    SkipSpaceShortens(x);
    ScanConsumes(if y != "" && y[0] == '+' then y[1..] else y);
  }

  lemma ReadSignedConsumes(x: string)
    requires ReadSigned(x).Got?
    ensures |Numeral(ReadSigned(x).value)| + |ReadSigned(x).rest| <= |x|
  {
    hide Digits, Scan, StartsWithDigit, SkipSpace;
    var y := SkipSpace(x);
    SkipSpaceShortens(x);
    ScanConsumes(if y != "" && (y[0] == '-' || y[0] == '+') then y[1..] else y);
  }

  /** An empty string costs its code and the character swallowed after it. */
  lemma LoadStrConsumes(x: string)
    requires LoadStr(x, 1).Got? && LoadStr(x, 1).rest != ""
    ensures TextWeight(LoadStr(x, 1).value) + |LoadStr(x, 1).rest| <= |x|
  {
    hide Digits, ReadSize;
    ReadSizeConsumes(x);
  }

  lemma LoadNumberConsumes(x: string)
    requires x != "" && LoadNumber(x).Got? && LoadNumber(x).rest != ""
    ensures Weight(LoadNumber(x).value) + |LoadNumber(x).rest| <= |x|
  {
    hide Numeral, ReadSigned;
    ReadSignedConsumes(Drop(x, 1));
  }

  predicate Closed(t: Node, rest: string) {
    rest != "" || t.Array? || t.Dict?
  }

  lemma {:induction false} LoadConsumes(x: string)
    requires x != "" && LoadNode(x, 1).Got?
    requires Closed(LoadNode(x, 1).value, LoadNode(x, 1).rest)
    ensures Weight(LoadNode(x, 1).value) + |LoadNode(x, 1).rest| <= |x|
    decreases |x|, 1
  {
    hide LoadStr, ReadSigned, Collected, TextCode, Numeral;
    var t := LoadNode(x, 1).value;
    if x[0] == 'i' {
      LoadNumberConsumes(x);
    } else if x[0] == 'l' {
      LoadItemsConsumes(x[1..]);
      ItemsWeigh(t.items);
    } else if x[0] == 'd' || x[0] == CHAR_MINUS_ONE {
      LoadPairsConsumes(x[1..]);
      CollectedWeighs([], LoadPairs(x[1..], 1).value);
      EntriesWeigh(t.entries);
    } else {
      LoadStrConsumes(x);
    }
  }

  lemma {:induction false} LoadItemsConsumes(x: string)
    requires LoadItems(x, 1).Got?
    ensures ItemsWeight(LoadItems(x, 1).value) + 1 + |LoadItems(x, 1).rest| <= |x|
    decreases |x|, 2
  {
    hide Weight;
    if x[0] != 'e' {
      var item := LoadNode(x, 1);
      LoadConsumes(x);
      LoadItemsConsumes(item.rest);
      var items := LoadItems(item.rest, 1).value;
      assert ([item.value] + items)[1..] == items;
    }
  }

  lemma {:induction false} LoadPairsConsumes(x: string)
    requires LoadPairs(x, 1).Got?
    ensures EntriesWeight(LoadPairs(x, 1).value) + 1 + |LoadPairs(x, 1).rest| <= |x|
    decreases |x|, 2
  {
    hide Weight, TextWeight;
    if x[0] != 'e' {
      var key := LoadStr(x, 1);
      var value := LoadNode(key.rest, 1);
      LoadStrConsumes(x);
      LoadConsumes(key.rest);
      LoadPairsConsumes(value.rest);
      var pairs := LoadPairs(value.rest, 1).value;
      assert ([Entry(key.value, value.value)] + pairs)[1..] == pairs;
    }
  }

  /** The library loads back what it printed, whatever follows, exactly if no string is empty; an
      empty string alone at the very end of the input is the one other case. */
  lemma RoundTripExactly(t: Node, rest: string)
    requires WellFormed(t)
    ensures LoadNode(Code(t) + rest, 1) == Got(t, rest) <==>
            Empties(t) == 0 || (t == Text("") && rest == "")
  {
    hide WellFormed, Code, LoadNode, Empties;
    if Empties(t) == 0 {
      RoundTrip(t, rest, 1);
    } else if t == Text("") && rest == "" {
      LoneEmpty();
      assert Code(t) + rest == Code(t);
    } else {
      if LoadNode(Code(t) + rest, 1) == Got(t, rest) {
        CodeLeads(t, rest);
        EmptiesInside(t);
        LoadConsumes(Code(t) + rest);
        assert false;
      }
    }
  }

  lemma LoneEmpty()
    ensures LoadNode(Code(Text("")), 1) == Got(Text(""), "")
  {
    assert Code(Text("")) == "0:";
    assert StartsWithDigit("0:") && SkipSpace("0:") == "0:";
    assert Scan("0:", 0) == Scan(":", 0) == (0, ":");
  }

  lemma EmptiesInside(t: Node)
    requires Empties(t) > 0
    ensures t.Array? || t.Dict? || t == Text("")
  {
  }

  /** Printing is injective and prefix-free, on all trees. */
  lemma PrefixFree(t: Node, u: Node, a: string, b: string)
    requires WellFormed(t) && WellFormed(u) && Code(t) + a == Code(u) + b
    ensures t == u && a == b
  {
    RoundTrip(t, a, 0);
    RoundTrip(u, b, 0);
  }
}
