/** The loader and the printer as they work on streams. */
module BencodeStreams {
  import opened Common
  import opened Numerals
  import opened Bencode

  /** Where the library's loader would not come back with a value, `got` is `None`. */
  predicate Took<T(==)>(parsed: Parsed<T>, got: Option<T>, left: string) {
    match parsed
    case Fail => got == None
    case Got(value, rest) => got == Some(value) && left == rest
  }

  /** How a list being filled and the text still to load stand to all of its text. */
  predicate Filling(whole: string, items: seq<Node>, left: string) {
    var p, q := LoadItems(whole, 1), LoadItems(left, 1);
    p == if q.Fail? then Fail else Got(items + q.value, q.rest)
  }

  predicate Mapping(whole: string, dict: seq<Entry>, left: string) {
    var p, q := LoadPairs(whole, 1), LoadPairs(left, 1);
    if q.Fail? then p.Fail?
    else p.Got? && p.rest == q.rest && Collected([], p.value) == Collected(dict, q.value)
  }

  lemma {:induction false} FillingStep(whole: string, items: seq<Node>, left: string)
    requires Filling(whole, items, left) && left != "" && left[0] != 'e'
    ensures var item := LoadNode(left, 1);
      if item.Fail? then LoadItems(whole, 1).Fail? else Filling(whole, items + [item.value], item.rest)
  {
    hide LoadNode;
    var item := LoadNode(left, 1);
    if item.Got? && LoadItems(item.rest, 1).Got? {
      var more := LoadItems(item.rest, 1).value;
      assert items + ([item.value] + more) == items + [item.value] + more;
    }
  }

  lemma MappingStep(whole: string, dict: seq<Entry>, left: string)
    requires Mapping(whole, dict, left) && left != "" && left[0] != 'e'
    ensures var key := LoadStr(left, 1);
      if key.Fail? then LoadPairs(whole, 1).Fail?
      else
        var value := LoadNode(key.rest, 1);
        if value.Fail? then LoadPairs(whole, 1).Fail?
        else Mapping(whole, Emplace(dict, Entry(key.value, value.value)), value.rest)
  {
    hide LoadNode, LoadStr, Emplace;
    var key := LoadStr(left, 1);
    if key.Got? {
      var value := LoadNode(key.rest, 1);
      if value.Got? && LoadPairs(value.rest, 1).Got? {
        var more := LoadPairs(value.rest, 1).value;
        assert ([Entry(key.value, value.value)] + more)[1..] == more;
      }
    }
  }

  class Input {
    /** The characters not yet taken. */
    var text: string

    constructor (text: string)
      ensures this.text == text
    {
      this.text := text;
    }

    method Get()
      modifies this
      ensures text == Drop(old(text), 1)
    {
      if text != "" {
        text := text[1..];
      }
    }

    method LoadStr() returns (got: Option<string>)
      modifies this
      ensures Took(Bencode.LoadStr(old(text), 1), got, text)
    {
      var size := ReadSize(text);
      if size.Fail? {
        return None;
      }
      text := size.rest;
      Get();
      if size.value > |text| {
        return None;
      }
      var str := text[..size.value];
      if size.value > 0 {
        text := text[size.value - 1..];
      }
      Get();
      return Some(str);
    }

    method LoadNumber() returns (got: Option<Node>)
      modifies this
      ensures Took(Bencode.LoadNumber(old(text)), got, text)
    {
      Get();
      var number := ReadSigned(text);
      if number.Fail? {
        return None;
      }
      text := number.rest;
      Get();
      return Some(Number(number.value));
    }

    method LoadNode() returns (got: Option<Node>)
      modifies this
      ensures Took(Bencode.LoadNode(old(text), 1), got, text)
      decreases |text|, 2
    {
      if text == "" || text[0] == 'd' || text[0] == CHAR_MINUS_ONE {
        got := LoadDict();
      } else if text[0] == 'i' {
        got := LoadNumber();
      } else if text[0] == 'l' {
        got := LoadArray();
      } else {
        var s := LoadStr();
        got := if s.None? then None else Some(Text(s.value));
      }
    }

    method LoadArray() returns (got: Option<Node>)
      requires text != "" && text[0] == 'l'
      modifies this
      ensures Took(Bencode.LoadNode(old(text), 1), got, text)
      decreases |text|, 1
    {
      hide Bencode.LoadNode, Filling;
      LoadOfList(text);
      Get();
      ghost var whole := text;
      var items := [];
      StartFilling(whole);
      while true
        invariant |text| < |old(text)| && Filling(whole, items, text)
        decreases |text|
      {
        if text == "" {
          StopFilling(whole, items, text);
          return None;
        }
        if text[0] == 'e' {
          break;
        }
        FillingStep(whole, items, text);
        NodeShortens(text);
        var item := LoadNode();
        if item.None? {
          return None;
        }
        items := items + [item.value];
      }
      StopFilling(whole, items, text);
      Get();
      return Some(Array(items));
    }

    method LoadDict() returns (got: Option<Node>)
      requires text == "" || text[0] == 'd' || text[0] == CHAR_MINUS_ONE
      modifies this
      ensures Took(Bencode.LoadNode(old(text), 1), got, text)
      decreases |text|, 1
    {
      hide Bencode.LoadNode, Bencode.LoadStr, Mapping;
      LoadOfDict(text);
      if text == "" {
        return Some(Dict([]));
      }
      Get();
      ghost var whole := text;
      var dict := [];
      StartMapping(whole);
      while true
        invariant |text| < |old(text)| && Mapping(whole, dict, text)
        decreases |text|
      {
        if text == "" {
          StopMapping(whole, dict, text);
          return None;
        }
        if text[0] == 'e' {
          break;
        }
        MappingStep(whole, dict, text);
        StrShortens(text);
        var key := LoadStr();
        if key.None? {
          return None;
        }
        NodeShortens(text);
        var value := LoadNode();
        if value.None? {
          return None;
        }
        dict := Emplace(dict, Entry(key.value, value.value));
      }
      StopMapping(whole, dict, text);
      Get();
      return Some(Dict(dict));
    }
  }

  lemma LoadOfList(x: string)
    requires x != "" && x[0] == 'l'
    ensures var items := LoadItems(Drop(x, 1), 1);
      LoadNode(x, 1) == if items.Fail? then Fail else Got(Array(items.value), items.rest)
  {
  }

  lemma LoadOfDict(x: string)
    requires x == "" || x[0] == 'd' || x[0] == CHAR_MINUS_ONE
    ensures var pairs := LoadPairs(Drop(x, 1), 1);
      LoadNode(x, 1) == if x == "" then Got(Dict([]), "")
                        else if pairs.Fail? then Fail else Got(Dict(Collected([], pairs.value)), pairs.rest)
  {
  }

  lemma StrShortens(x: string)
    ensures LoadStr(x, 1).Got? ==> |LoadStr(x, 1).rest| < |x|
  {
  }

  lemma NodeShortens(x: string)
    ensures LoadNode(x, 1).Got? ==> |LoadNode(x, 1).rest| <= |x| && (x != "" ==> |LoadNode(x, 1).rest| < |x|)
  {
  }

  lemma StartFilling(whole: string)
    ensures Filling(whole, [], whole)
  {
    var q := LoadItems(whole, 1);
    assert q.Got? ==> [] + q.value == q.value;
  }

  lemma StartMapping(whole: string)
    ensures Mapping(whole, [], whole)
  {
  }

  lemma StopFilling(whole: string, items: seq<Node>, left: string)
    requires Filling(whole, items, left) && (left == "" || left[0] == 'e')
    ensures LoadItems(whole, 1) == if left == "" then Fail else Got(items, Drop(left, 1))
  {
    assert items + [] == items;
  }

  lemma StopMapping(whole: string, dict: seq<Entry>, left: string)
    requires Mapping(whole, dict, left) && (left == "" || left[0] == 'e')
    ensures var pairs := LoadPairs(whole, 1);
      if left == "" then pairs.Fail?
      else pairs.Got? && Collected([], pairs.value) == dict && pairs.rest == Drop(left, 1)
  {
  }

  class Output {
    var text: string

    constructor ()
      ensures text == ""
    {
      text := "";
    }

    method MakeSerialize(t: Node)
      modifies this
      ensures text == old(text) + Code(t)
      decreases t, 0
    {
      match t
      case Number(n) => text := text + ("i" + Numeral(n) + "e");
      case Text(s) => SerializeText(s);
      case Array(items) => SerializeArray(t, items);
      case Dict(entries) => SerializeDict(t, entries);
    }

    method SerializeText(s: string)
      modifies this
      ensures text == old(text) + TextCode(s)
    {
      text := text + (Digits(|s|) + ":" + s);
    }

    method SerializeArray(ghost t: Node, items: seq<Node>)
      requires t == Array(items)
      modifies this
      ensures text == old(text) + Code(t)
      decreases items
    {
      hide Code;
      CodeOfArray(items);
      text := text + "l";
      ghost var base := text;
      var i := 0;
      while i < |items|
        invariant 0 <= i <= |items|
        invariant text + ItemsCode(items[i..]) == base + ItemsCode(items)
      {
        Regroup(text, Code(items[i]), ItemsCode(items[i + 1..]));
        NextItem(items, i);
        MakeSerialize(items[i]);
        i := i + 1;
      }
      text := text + "e";
      Regroup(old(text), "l", ItemsCode(items));
      Regroup(old(text), "l" + ItemsCode(items), "e");
    }

    method SerializeDict(ghost t: Node, entries: seq<Entry>)
      requires t == Dict(entries)
      modifies this
      ensures text == old(text) + Code(t)
      decreases entries
    {
      hide Code, TextCode;
      CodeOfDict(entries);
      text := text + "d";
      ghost var base := text;
      var i := 0;
      while i < |entries|
        invariant 0 <= i <= |entries|
        invariant text + EntriesCode(entries[i..]) == base + EntriesCode(entries)
      {
        var e := entries[i];
        NextEntry(entries, i);
        Regroup(text, TextCode(e.key), Code(e.value));
        Regroup(text, TextCode(e.key) + Code(e.value), EntriesCode(entries[i + 1..]));
        SerializeText(e.key);
        MakeSerialize(e.value);
        i := i + 1;
      }
      text := text + "e";
      Regroup(old(text), "d", EntriesCode(entries));
      Regroup(old(text), "d" + EntriesCode(entries), "e");
    }
  }

  lemma CodeOfArray(items: seq<Node>)
    ensures Code(Array(items)) == "l" + ItemsCode(items) + "e"
  {
  }

  lemma CodeOfDict(entries: seq<Entry>)
    ensures Code(Dict(entries)) == "d" + EntriesCode(entries) + "e"
  {
  }

  lemma NextItem(items: seq<Node>, i: nat)
    requires i < |items|
    ensures ItemsCode(items[i..]) == Code(items[i]) + ItemsCode(items[i + 1..])
  {
    assert items[i..][1..] == items[i + 1..];
  }

  lemma NextEntry(entries: seq<Entry>, i: nat)
    requires i < |entries|
    ensures EntriesCode(entries[i..]) ==
            TextCode(entries[i].key) + Code(entries[i].value) + EntriesCode(entries[i + 1..])
  {
    assert entries[i..][1..] == entries[i + 1..];
  }
}
