/** The string table of Device and USBString: arrays that grow, refining a map from (index, language) to strings. */
module StringTable {
  import opened Common

  // ----- USBString -----

  /** The characters before the terminating zero. */
  function Text(value: seq<word>): seq<word> {
    if value == [] || value[0] == 0 then [] else [value[0]] + Text(value[1..])
  }

  lemma {:induction false} TextIs(value: seq<word>, len: nat)
    requires len < |value| && value[len] == 0 && forall k :: 0 <= k < len ==> value[k] != 0
    ensures Text(value) == value[..len]
  {
    if len > 0 {
      TextIs(value[1..], len - 1);
    }
  }

  class USBString {
    const index: byte
    const languageId: word
    /** The descriptor: its length byte and its characters. */
    var bLength: byte
    var wData: seq<word>

    ghost predicate Valid()
      reads this
    {
      bLength % 2 == 0 && bLength >= 2 && |wData| == bLength / 2 - 1
    }

    /** The source computes this in a byte. */
    function CharCount(): byte
      reads this
    {
      (bLength / 2 - 1) % 0x100
    }

    constructor FromDescriptor(index: byte, languageId: word, bLength: byte, wData: seq<word>)
      ensures this.index == index && this.languageId == languageId
      ensures this.bLength == bLength && this.wData == wData
    {
      this.index, this.languageId, this.bLength, this.wData := index, languageId, bLength, wData;
    }

    /** The length of a zero-terminated string. */
    static method Length(value: seq<word>) returns (len: nat)
      requires 0 in value
      ensures len < |value| && Text(value) == value[..len]
    {
      len := 0;
      ghost var zero :| 0 <= zero < |value| && value[zero] == 0;
      while value[len] != 0
        invariant len <= zero && forall k :: 0 <= k < len ==> value[k] != 0
        decreases |value| - len
      {
        len := len + 1;
      }
      TextIs(value, len);
    }

    /** From a zero-terminated UTF-16 string; the length byte is exact up to 126 characters. */
    constructor FromUnicode(value: seq<word>, index: byte, languageId: word)
      requires 0 in value
      ensures this.index == index && this.languageId == languageId && wData == Text(value)
      ensures bLength == 2 * (|Text(value)| + 1) % 0x100
      ensures |Text(value)| <= 126 ==> Valid() && CharCount() == |Text(value)|
    {
      this.index, this.languageId := index, languageId;
      bLength, wData := 0, [];
      new;
      var len := Length(value);
      bLength := 2 * (len + 1) % 0x100;
      for i := 0 to len
        invariant wData == value[..i] && bLength == 2 * (len + 1) % 0x100
      {
        wData := wData + [value[i]];
      }
    }

    /** Only the zero string grows. The length byte wraps to zero after 126 characters. */
    method AppendChar(u: word)
      requires bLength % 2 == 0 && bLength >= 2 && |wData| == bLength / 2 - 1
      modifies this
      ensures index != 0 || languageId != 0 ==> bLength == old(bLength) && wData == old(wData)
      ensures index == 0 && languageId == 0 ==>
                wData == old(wData) + [u] && bLength == (old(bLength) as int + 2) % 0x100
      ensures old(CharCount()) < 126 ==> Valid()
      ensures index == 0 && languageId == 0 && old(CharCount()) == 126 ==> CharCount() == 255
    {
      if index != 0 || languageId != 0 {
        return;
      }
      var len := bLength as int + 2;
      bLength := len % 0x100;
      wData := wData[..len / 2 - 2] + [u];
    }
  }

  // ----- The table on values -----

  /** The NULL-terminated list at each index; NULL where no list has been allocated. */
  type Table = seq<Option<seq<USBString>>>

  function FirstWith(list: seq<USBString>, languageId: word): Option<USBString> {
    if list == [] then None
    else if list[0].languageId == languageId then Some(list[0])
    else FirstWith(list[1..], languageId)
  }

  /** The table as a map. */
  function Lookup(t: Table, index: nat, languageId: word): Option<USBString> {
    if index < |t| && t[index].Some? then FirstWith(t[index].value, languageId) else None
  }

  /** Every entry of the same language is replaced, and the string is appended all the same. */
  function Replaced(list: seq<USBString>, s: USBString): seq<USBString> {
    if list == [] then []
    else [if list[0].languageId == s.languageId then s else list[0]] + Replaced(list[1..], s)
  }

  function Grown(t: Table, n: nat): Table {
    if n < |t| then t else t + seq(n + 1 - |t|, _ => None)
  }

  function Added(t: Table, s: USBString): Table {
    var g := Grown(t, s.index);
    g[s.index := Some(if g[s.index].Some? then Replaced(g[s.index].value, s) + [s] else [s])]
  }

  lemma {:induction false} FirstInReplaced(list: seq<USBString>, s: USBString, languageId: word)
    ensures FirstWith(Replaced(list, s) + [s], languageId)
            == if languageId == s.languageId then Some(s) else FirstWith(list, languageId)
  {
    if list == [] {
      assert [s][1..] == [];
    } else {
      assert (Replaced(list, s) + [s])[1..] == Replaced(list[1..], s) + [s];
      FirstInReplaced(list[1..], s, languageId);
    }
  }

  lemma LookupGrown(t: Table, n: nat, index: nat, languageId: word)
    ensures Lookup(Grown(t, n), index, languageId) == Lookup(t, index, languageId)
  {}

  /** One `add_string` is one map update, across growth and despite the duplicates it leaves behind. */
  lemma LookupAdded(t: Table, s: USBString, index: nat, languageId: word)
    ensures Lookup(Added(t, s), index, languageId)
            == if index == s.index && languageId == s.languageId then Some(s) else Lookup(t, index, languageId)
  {
    var g := Grown(t, s.index);
    LookupGrown(t, s.index, index, languageId);
    FirstInReplaced([], s, languageId);
    assert Replaced([], s) + [s] == [s];
    if g[s.index].Some? {
      FirstInReplaced(g[s.index].value, s, languageId);
    }
  }

  /**
   The table itself after `add_string`: it reaches the index and is no longer than needed, all other lists are as
   they were, and the list at the index keeps its entries, those of the language replaced, and ends in the string.
   */
  lemma AddedExactly(t: Table, s: USBString)
    ensures |Added(t, s)| == if s.index < |t| then |t| else s.index as int + 1
    ensures forall j :: 0 <= j < |Added(t, s)| && j != s.index as int ==>
              Added(t, s)[j] == if j < |t| then t[j] else None
    ensures var before := if s.index < |t| && t[s.index].Some? then t[s.index].value else [];
            && Added(t, s)[s.index].Some?
            && var after := Added(t, s)[s.index].value;
            && |after| == |before| + 1 && after[|before|] == s
            && forall k :: 0 <= k < |before| ==>
                 after[k] == if before[k].languageId == s.languageId then s else before[k]
  {
    if s.index < |t| && t[s.index].Some? {
      ReplacedEntries(t[s.index].value, s);
    }
  }

  lemma {:induction false} ReplacedEntries(list: seq<USBString>, s: USBString)
    ensures |Replaced(list, s)| == |list|
    ensures forall k :: 0 <= k < |list| ==>
              Replaced(list, s)[k] == if list[k].languageId == s.languageId then s else list[k]
  {
    if list != [] {
      ReplacedEntries(list[1..], s);
    }
  }

  function AddedAll(t: Table, ss: seq<USBString>): Table {
    if ss == [] then t else Added(AddedAll(t, ss[..|ss| - 1]), ss[|ss| - 1])
  }

  lemma AddedNone(t: Table)
    ensures AddedAll(t, []) == t
  {}

  lemma AddedSnoc(t: Table, ss: seq<USBString>, s: USBString)
    ensures AddedAll(t, ss + [s]) == Added(AddedAll(t, ss), s)
  {
    assert (ss + [s])[..|ss|] == ss;
  }

  lemma KnownAlready(languages: seq<word>, languageId: word)
    requires languageId in languages
    ensures Known(languages, [languageId]) == languages
  {
    assert [languageId][..0] == [];
  }

  /** The last string of a run with this index and language. */
  function LastWith(ss: seq<USBString>, index: nat, languageId: word): Option<USBString> {
    if ss == [] then None
    else
      var s := ss[|ss| - 1];
      if s.index == index && s.languageId == languageId then Some(s) else LastWith(ss[..|ss| - 1], index, languageId)
  }

  /** Over any run of `add_string` a lookup finds the last string added for the pair, and no other pair changes. */
  lemma {:induction false} RunRefinesMap(t: Table, ss: seq<USBString>, index: nat, languageId: word)
    ensures var last := LastWith(ss, index, languageId);
            Lookup(AddedAll(t, ss), index, languageId) == if last.Some? then last else Lookup(t, index, languageId)
  {
    if ss != [] {
      var init := ss[..|ss| - 1];
      RunRefinesMap(t, init, index, languageId);
      LookupAdded(AddedAll(t, init), ss[|ss| - 1], index, languageId);
    }
  }

  // ----- The language list -----

  /** The languages after strings with these languages were added, one after the other. */
  function Known(languages: seq<word>, added: seq<word>): seq<word> {
    if added == [] then languages
    else
      var before := Known(languages, added[..|added| - 1]);
      var last := added[|added| - 1];
      if last in before then before else before + [last]
  }

  ghost predicate Distinct(s: seq<word>) {
    forall i, j :: 0 <= i < j < |s| ==> s[i] != s[j]
  }

  /** Over any run the list keeps its prefix, gains exactly what was missing, and stays free of duplicates. */
  lemma {:induction false} LanguagesAccumulate(languages: seq<word>, added: seq<word>)
    ensures languages <= Known(languages, added)
    ensures forall l :: l in Known(languages, added) <==> l in languages || l in added
    ensures Distinct(Known(languages, added)[|languages|..])
    ensures forall l :: l in Known(languages, added)[|languages|..] ==> l !in languages
  {
    if added != [] {
      var init, last := added[..|added| - 1], added[|added| - 1];
      LanguagesAccumulate(languages, init);
      var before := Known(languages, init);
      assert added == init + [last];
      if last !in before {
        assert (before + [last])[|languages|..] == before[|languages|..] + [last];
      }
    }
  }

  // ----- Device -----

  /** Fetching a string descriptor from the device. */
  datatype Fetched = Fetched(bLength: byte, wData: seq<word>)
  {
    predicate Valid() { bLength % 2 == 0 && bLength >= 2 && |wData| == bLength / 2 - 1 }
  }

  class Device {
    var strings: Table

    /** The list at index 0 starts with the zero string, which holds the languages. */
    ghost predicate Valid()
      reads this
    {
      && |strings| > 0 && strings[0].Some? && strings[0].value != []
      && strings[0].value[0].index == 0 && strings[0].value[0].languageId == 0
    }

    function Zero(): USBString
      requires Valid()
      reads this
    { strings[0].value[0] }

    function Languages(): seq<word>
      requires Valid()
      reads this, Zero()
    { Zero().wData }

    constructor (zero: USBString)
      requires zero.index == 0 && zero.languageId == 0
      ensures Valid() && strings == [Some([zero])]
    {
      strings := [Some([zero])];
    }

    /** `add_language`: the list keeps its prefix and gains no duplicate; the 127th language breaks the count. */
    method AddLanguage(languageId: word)
      requires Valid() && Zero().Valid()
      modifies Zero()
      ensures Valid() && Languages() == Known(old(Languages()), [languageId])
      ensures if |Languages()| <= 126 then Zero().Valid() else Zero().CharCount() == 255
    {
      var count := Zero().CharCount();
      for i := 0 to count
        invariant languageId !in Languages()[..i]
      {
        if languageId == Zero().wData[i] {
          return;
        }
      }
      Zero().AppendChar(languageId);
    }

    /** `add_string(string)`. */
    method AddString(s: USBString)
      requires Valid() && Zero().Valid() && s.Valid()
      modifies this, Zero()
      ensures Valid() && (if |Languages()| <= 126 then Zero().Valid() else Zero().CharCount() == 255)
      ensures strings == Added(old(strings), s)
      ensures s.index == 0 && s.languageId == 0 ==> Zero() == s
      ensures s.index != 0 || s.languageId != 0 ==>
                && Zero() == old(Zero())
                && Languages() == Known(old(Languages()), [s.languageId])
    {
      var index, languageId := s.index, s.languageId;
      if index != 0 || languageId != 0 {
        AddLanguage(languageId);
      }
      strings := Grown(strings, index);
      if strings[index].Some? {
        var list := ReplaceIn(strings[index].value, s);
        strings := strings[index := Some(list + [s])];
      } else {
        strings := strings[index := Some([s])];
      }
    }

    /** `add_string(index, languageId)`: fetches the string from the device first. */
    method AddFetched(index: byte, languageId: word, f: Fetched) returns (s: USBString)
      requires Valid() && Zero().Valid() && f.Valid()
      modifies this, Zero()
      ensures Valid() && (if |Languages()| <= 126 then Zero().Valid() else Zero().CharCount() == 255)
      ensures index != 0 || languageId != 0 ==>
                && Zero() == old(Zero())
                && Languages() == Known(old(Languages()), [languageId])
      ensures index == 0 && languageId == 0 ==> Zero() == s
      ensures fresh(s) && s.index == index && s.languageId == languageId
      ensures s.bLength == f.bLength && s.wData == f.wData
      ensures strings == Added(old(strings), s)
    {
      s := new USBString.FromDescriptor(index, languageId, f.bLength, f.wData);
      AddString(s);
    }

    /** `add_string(index)`: one string per known language; the language list stays as it is. */
    method AddForAllLanguages(index: byte, fetched: seq<Fetched>) returns (ghost added: seq<USBString>)
      requires Valid() && Zero().Valid() && (index != 0 || 0 !in Languages())
      requires |fetched| == |Languages()| && forall k :: 0 <= k < |fetched| ==> fetched[k].Valid()
      modifies this, Zero()
      ensures Valid() && Zero() == old(Zero()) && Languages() == old(Languages())
      ensures |added| == |fetched| && strings == AddedAll(old(strings), added)
      ensures forall k :: 0 <= k < |added| ==>
                added[k].index == index && added[k].languageId == Languages()[k] && added[k].wData == fetched[k].wData
    {
      hide Added, AddedAll, Known;
      var languages := Zero().wData;
      added := [];
      AddedNone(strings);
      for i := 0 to Zero().CharCount()
        invariant Valid() && Zero().Valid() && Zero() == old(Zero()) && Languages() == languages
        invariant |added| == i && strings == AddedAll(old(strings), added)
        invariant forall k :: 0 <= k < i ==>
                    && fresh(added[k]) && added[k].index == index && added[k].languageId == languages[k]
                    && added[k].wData == fetched[k].wData
      {
        KnownAlready(languages, languages[i]);
        var s := AddFetched(index, languages[i], fetched[i]);
        AddedSnoc(old(strings), added, s);
        added := added + [s];
      }
    }

    /** The replacing loop, up to the terminating NULL. */
    static method ReplaceIn(list: seq<USBString>, s: USBString) returns (r: seq<USBString>)
      ensures r == Replaced(list, s)
    {
      r := list;
      assert list[0..] == list;
      for i := 0 to |list|
        invariant |r| == |list| && r[i..] == list[i..]
        invariant r[..i] + Replaced(list[i..], s) == Replaced(list, s)
      {
        assert list[i..][1..] == list[i + 1..];
        if r[i].languageId == s.languageId {
          r := r[i := s];
        }
      }
      assert list[|list|..] == [] && r[..|list|] == r;
    }

    /** `get_string`: the first entry of the language; language 0 stands for the first language known. */
    method GetString(index: byte, languageId: word) returns (r: USBString?)
      requires Valid() && (index != 0 && languageId == 0 ==> |Languages()| > 0)
      ensures var wanted := if languageId == 0 && index != 0 then Languages()[0] else languageId;
              if Lookup(strings, index, wanted).Some? then r == Lookup(strings, index, wanted).value else r == null
    {
      if index as int >= |strings| || strings[index] == None {
        return null;
      }
      var wanted := languageId;
      if languageId == 0 && index != 0 {
        wanted := Zero().wData[0];
      }
      var list := strings[index].value;
      assert list[0..] == list;
      for i := 0 to |list|
        invariant FirstWith(list[i..], wanted) == FirstWith(list, wanted)
      {
        assert list[i..][1..] == list[i + 1..];
        if list[i].languageId == wanted {
          return list[i];
        }
      }
      return null;
    }
  }
}
