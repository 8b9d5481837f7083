/** The string table of the image generator and the STRINGS payload it prints. */
module SiiStrings {
  import opened Wrappers
  import opened SiiBytes
  import opened Flattening

  datatype Error =
    | BufferTooShort    // IndexError: ByteSize below the 128 bytes of the configuration area
    | StringTooLong     // ValueError: more than 255 latin-1 bytes
    | ValueOutOfByte    // ValueError: an index or a count that does not fit one byte
    | FieldOutOfRange   // struct.error: a field that does not fit its packed width
    | ImageTooSmall     // SystemExit: the categories do not fit the buffer

  // ---------- Texts ----------

  /** The characters that str.strip removes. */
  predicate IsSpace(c: char) {
    var n := c as int;
    || 0x09 <= n <= 0x0D || 0x1C <= n <= 0x20 || n == 0x85 || n == 0xA0 || n == 0x1680
    || 0x2000 <= n <= 0x200A || n == 0x2028 || n == 0x2029 || n == 0x202F || n == 0x205F || n == 0x3000
  }

  function StripLeft(s: string): string {
    if s != "" && IsSpace(s[0]) then StripLeft(s[1..]) else s
  }

  function StripRight(s: string): string {
    if s != "" && IsSpace(s[|s| - 1]) then StripRight(s[..|s| - 1]) else s
  }

  function Strip(s: string): string { StripRight(StripLeft(s)) }

  predicate AllSpaces(s: string) { forall c | c in s :: IsSpace(c) }

  /** Neither begins nor ends with a space. */
  predicate Trimmed(r: string) { r != "" ==> !IsSpace(r[0]) && !IsSpace(r[|r| - 1]) }

  /** r is what stripping leaves of s: between spaces on both sides, and trimmed. */
  ghost predicate StrippedTo(s: string, r: string) {
    Trimmed(r) && exists a, b :: s == a + r + b && AllSpaces(a) && AllSpaces(b)
  }

  lemma {:induction false} StripLeftMeaning(s: string)
    ensures var r := StripLeft(s);
            |r| <= |s| && s[|s| - |r|..] == r && AllSpaces(s[..|s| - |r|]) && (r != "" ==> !IsSpace(r[0]))
    decreases |s|
  {
    if s != "" && IsSpace(s[0]) {
      StripLeftMeaning(s[1..]);
      var k := |s| - |StripLeft(s)|;
      assert s[..k] == [s[0]] + s[1..][..k - 1];
    }
  }

  lemma {:induction false} StripRightMeaning(s: string)
    ensures var r := StripRight(s);
            |r| <= |s| && s[..|r|] == r && AllSpaces(s[|r|..]) && (r != "" ==> !IsSpace(r[|r| - 1]))
    decreases |s|
  {
    if s != "" && IsSpace(s[|s| - 1]) {
      var front := s[..|s| - 1];
      StripRightMeaning(front);
      var k := |StripRight(s)|;
      assert s[k..] == front[k..] + [s[|s| - 1]];
    }
  }

  lemma StripMeaning(s: string)
    ensures StrippedTo(s, Strip(s))
  {
    hide IsSpace;
    var l := StripLeft(s);
    var r := StripRight(l);
    StripLeftMeaning(s);
    StripRightMeaning(l);
    hide StripLeft;
    hide StripRight;
    var a, b := s[..|s| - |l|], l[|r|..];
    assert s == a + l && l == r + b;
    assert s == a + r + b;
    if r != "" { assert r[0] == l[0]; }
  }

  /** Nothing else can be left. */
  lemma StrippedOnce(s: string, r: string, t: string)
    requires StrippedTo(s, r) && StrippedTo(s, t)
    ensures r == t
  {
    var a, b :| s == a + r + b && AllSpaces(a) && AllSpaces(b);
    var c, e :| s == c + t + e && AllSpaces(c) && AllSpaces(e);
    assert s[|a|..|a| + |r|] == r && s[|c|..|c| + |t|] == t;
    Within(s, a, r, b, c, t, e);
    Within(s, c, t, e, a, r, b);
    hide IsSpace;
  }

  lemma Within(s: string, a: string, r: string, b: string, c: string, t: string, e: string)
    requires s == a + r + b && Trimmed(r) && s == c + t + e && AllSpaces(c) && AllSpaces(e)
    ensures r != "" ==> |c| <= |a| && |a| + |r| <= |c| + |t|
  {
    hide IsSpace;
    if r != "" {
      assert s[|a|] == r[0] && s[|a| + |r| - 1] == r[|r| - 1];
      Outside(s, c, t, e, |a|);
      Outside(s, c, t, e, |a| + |r| - 1);
    }
  }

  lemma Outside(s: string, a: string, r: string, b: string, k: nat)
    requires s == a + r + b && AllSpaces(a) && AllSpaces(b) && k < |s|
    ensures !IsSpace(s[k]) ==> |a| <= k < |a| + |r|
  {
    hide IsSpace;
    if k < |a| { assert s[k] == a[k]; }
    if k >= |a| + |r| { assert s[k] == b[k - |a| - |r|]; }
  }

  /** (value or "").strip() */
  function Text(value: Option<string>): string {
    match value
    case None => ""
    case Some(s) => Strip(s)
  }

  function Latin1Char(c: char): byte { if c as int < 0x100 then c as int else '?' as int }

  /** encode("latin-1", errors="replace"): one byte a character. */
  function EncodeLatin1(s: string): seq<byte> { seq(|s|, i requires 0 <= i < |s| => Latin1Char(s[i])) }

  function DecodeLatin1(b: seq<byte>): string { seq(|b|, i requires 0 <= i < |b| => b[i] as char) }

  /** What latin-1 can show of a text: the other characters become question marks. */
  function Latin1Text(s: string): string {
    seq(|s|, i requires 0 <= i < |s| => if s[i] as int < 0x100 then s[i] else '?')
  }

  lemma DecodeEncoded(s: string)
    ensures DecodeLatin1(EncodeLatin1(s)) == Latin1Text(s)
  {
    forall i | 0 <= i < |s| ensures DecodeLatin1(EncodeLatin1(s))[i] == Latin1Text(s)[i] {
      assert EncodeLatin1(s)[i] == Latin1Char(s[i]);
    }
  }

  /** Nothing is lost exactly when every character is a latin-1 character. */
  lemma Latin1Exact(s: string)
    ensures Latin1Text(s) == s <==> forall c | c in s :: (c as int) < 0x100
  {
    if forall c | c in s :: (c as int) < 0x100 {
      forall i | 0 <= i < |s| ensures Latin1Text(s)[i] == s[i] { assert s[i] in s; }
    }
    if Latin1Text(s) == s {
      forall c | c in s ensures (c as int) < 0x100 {
        var i :| 0 <= i < |s| && s[i] == c;
        assert Latin1Text(s)[i] == s[i];
      }
    }
  }

  // ---------- Interning, on the list of strings ----------

  /** The strings of a table: distinct, never empty, short enough for a length byte. */
  ghost predicate Interned(items: seq<string>) {
    && (forall i | 0 <= i < |items| :: 0 < |items[i]| < 0x100)
    && (forall i, j | 0 <= i < j < |items| :: items[i] != items[j])
  }

  predicate Known(items: seq<string>, text: string) { text == "" || text in items }

  /** The one-based place of a text; 0 for a text that has none. */
  ghost function IndexOf(items: seq<string>, text: string): (r: nat)
    ensures text != "" && text in items ==> 1 <= r <= |items| && items[r - 1] == text
    ensures text == "" || text !in items ==> r == 0
  {
    if text != "" && text in items then
      var i :| 0 <= i < |items| && items[i] == text;
      i + 1
    else 0
  }

  lemma IndexOfUnique(items: seq<string>, i: nat)
    requires Interned(items) && i < |items|
    ensures IndexOf(items, items[i]) == i + 1
  {
    var r := IndexOf(items, items[i]);
    assert items[r - 1] == items[i];
  }

  /** Adding one text: a new non-empty text goes to the end, unless it is too long. */
  function Intern(items: seq<string>, text: string): Option<seq<string>> {
    if Known(items, text) then Some(items)
    else if |text| > 255 then None
    else Some(items + [text])
  }

  function InternAll(items: seq<string>, texts: seq<string>): Option<seq<string>> {
    if texts == [] then Some(items)
    else
      match InternAll(items, texts[..|texts| - 1])
      case None => None
      case Some(more) => Intern(more, texts[|texts| - 1])
  }

  lemma {:induction false} InternAllAppend(items: seq<string>, a: seq<string>, b: seq<string>)
    ensures InternAll(items, a + b) ==
            match InternAll(items, a) case None => None case Some(more) => InternAll(more, b)
    decreases |b|
  {
    if b == [] {
      assert a + b == a;
    } else {
      var front := b[..|b| - 1];
      assert (a + b)[..|a + b| - 1] == a + front;
      InternAllAppend(items, a, front);
    }
  }

  lemma {:induction false} InternAllGrows(items: seq<string>, texts: seq<string>)
    requires Interned(items) && InternAll(items, texts).Some?
    ensures var more := InternAll(items, texts).value;
            && Interned(more) && items <= more
            && (forall t | t in texts :: Known(more, t))
            && (forall t | t in more :: t in items || t in texts)
    decreases |texts|
  {
    if texts != [] {
      var front, last := texts[..|texts| - 1], texts[|texts| - 1];
      InternAllGrows(items, front);
      forall t | t in texts ensures Known(InternAll(items, texts).value, t) {
        assert t == last || t in front;
      }
    }
  }

  /** Texts that are all in the table add nothing. */
  lemma {:induction false} InternKnown(items: seq<string>, texts: seq<string>)
    requires forall t | t in texts :: Known(items, t)
    ensures InternAll(items, texts) == Some(items)
    decreases |texts|
  {
    if texts != [] {
      InternKnown(items, texts[..|texts| - 1]);
      assert texts[|texts| - 1] in texts;
    }
  }

  /** A text keeps its index while the table grows. */
  lemma IndexOfStable(items: seq<string>, more: seq<string>, text: string)
    requires Interned(more) && items <= more && Known(items, text)
    ensures IndexOf(more, text) == IndexOf(items, text)
  {
    if text != "" {
      var r := IndexOf(items, text);
      assert more[r - 1] == text;
      IndexOfUnique(more, r - 1);
    }
  }

  // ---------- The table ----------

  class StringTable {
    var items: seq<string>
    var index: map<string, nat>

    ghost predicate Valid()
      reads this
    {
      && Interned(items)
      && index.Keys == (set t | t in items) + {""}
      && (forall t | t in index :: index[t] == IndexOf(items, t))
    }

    constructor ()
      ensures Valid() && items == []
    {
      items := [];
      index := map["" := 0];
    }

    /** Ok exactly when the text can be interned; its index then names it, and the table has grown
        by this text at most. */
    method Add(value: Option<string>) returns (r: Result<nat, Error>)
      requires Valid()
      modifies this
      ensures Valid()
      ensures r.Ok? <==> Intern(old(items), Text(value)).Some?
      ensures r.Ok? ==> Some(items) == Intern(old(items), Text(value)) && r.value == IndexOf(items, Text(value))
      ensures r.Ok? ==> Known(items, Text(value))
      ensures Known(old(items), Text(value)) ==> r.Ok? && items == old(items)
      ensures r.Err? ==> items == old(items)
    {
      var text := Text(value);
      if text == "" {
        return Ok(0);
      }
      if text in index {
        return Ok(index[text]);
      }
      if |EncodeLatin1(text)| > 255 {
        return Err(StringTooLong);
      }
      ghost var was := items;
      items := items + [text];
      index := index[text := |items|];
      assert items[|was|] == text;
      IndexOfUnique(items, |was|);
      forall t | t in index ensures index[t] == IndexOf(items, t) {
        if t != text { IndexOfStable(was, items, t); }
      }
      return Ok(|items|);
    }

    method Payload() returns (r: Result<seq<byte>, Error>)
      requires Valid()
      ensures r.Ok? <==> |items| < 0x100
      ensures r.Ok? ==> r.value == StringsPayload(items)
    {
      if |items| >= 0x100 {
        return Err(ValueOutOfByte);
      }
      ghost var blocks := TextBlocks(items);
      var data: seq<byte> := [|items|];
      for i := 0 to |items|
        invariant data == [|items|] + Flatten(blocks[..i])
      {
        var raw := EncodeLatin1(items[i]);
        data := data + [|raw|];
        data := data + raw;
        FlattenStep(blocks, i);
      }
      assert blocks[..|items|] == blocks;
      return Ok(data);
    }
  }

  // ---------- The STRINGS payload ----------

  /** One length byte and the characters; nothing for a text that one length byte cannot count. */
  function TextBlock(s: string): seq<byte> {
    if |s| < 0x100 then [|s|] + EncodeLatin1(s) else []
  }

  function TextBlocks(items: seq<string>): seq<seq<byte>> {
    seq(|items|, i requires 0 <= i < |items| => TextBlock(items[i]))
  }

  function StringsPayload(items: seq<string>): (r: seq<byte>)
    requires |items| < 0x100
    ensures |r| >= 1
  {
    [|items|] + Flatten(TextBlocks(items))
  }
}
