/** The reader of an SII image: walking the category chain and parsing STRINGS and GENERAL. */
module SiiReader {
  import opened Wrappers
  import opened SiiBytes
  import opened Flattening
  import opened SiiStrings
  import opened SiiImage

  // ---------- find_category ----------

  /** Where the walk from offset a ends: at a category of the kind, or nowhere. */
  function Find(data: seq<byte>, kind: nat, a: nat): Option<nat>
    decreases |data| - a
  {
    if a + 4 > |data| || ReadU16(data, a) == CAT_END then None
    else if ReadU16(data, a) == kind then Some(a)
    else Find(data, kind, a + 4 + 2 * ReadU16(data, a + 2))
  }

  method FindCategory(data: seq<byte>, kind: nat, start: nat := 0x80) returns (r: Option<nat>)
    ensures r == Find(data, kind, start)
  {
    var a := start;
    while a + 4 <= |data|
      invariant Find(data, kind, a) == Find(data, kind, start)
      decreases |data| - a
    {
      var p := ReadU16(data, a);
      if p == CAT_END {
        return None;
      }
      var length := ReadU16(data, a + 2);
      if p == kind {
        return Some(a);
      }
      a := a + 4 + length * 2;
    }
    return None;
  }

  /** The offset of the first category of a kind in a chain that starts at a. */
  function FirstOffset(cs: seq<Category>, kind: nat, a: nat): Option<nat>
    requires ChainFits(cs)
  {
    if cs == [] then None
    else if cs[0].kind == kind then Some(a)
    else FirstOffset(cs[1..], kind, a + |CategoryBytes(cs[0])|)
  }

  lemma HeaderWords(data: seq<byte>, a: nat, c: Category)
    requires CategoryFits(c) && At(data, a, CategoryBytes(c))
    ensures a + 4 <= |data| && ReadU16(data, a) == c.kind && ReadU16(data, a + 2) == |Padded(c.payload)| / 2
    ensures At(data, a + 4, Padded(c.payload))
  {
    var kind, size, payload := U16(c.kind), U16(|Padded(c.payload)| / 2), Padded(c.payload);
    AtSplit(data, a, kind + size, payload);
    AtSplit(data, a, kind, size);
    ReadWritten16(data, a, c.kind);
    ReadWritten16(data, a + 2, |Padded(c.payload)| / 2);
  }

  /** find_category is exact on every category chain closed by the end marker, whatever follows the
      marker, even nothing. */
  lemma {:induction false} FindIsExact(data: seq<byte>, cs: seq<Category>, kind: nat, a: nat)
    requires ChainFits(cs) && forall i | 0 <= i < |cs| :: cs[i].kind != CAT_END
    requires At(data, a, Chain(cs) + U16(CAT_END))
    ensures Find(data, kind, a) == FirstOffset(cs, kind, a)
    decreases |cs|
  {
    hide At;
    hide Find;
    if cs == [] {
      FindAtEnd(data, kind, a);
    } else {
      FirstInChain(data, cs, a);
      FindIsExact(data, cs[1..], kind, a + |CategoryBytes(cs[0])|);
      FindCons(data, cs[0], cs[1..], kind, a);
      assert cs == [cs[0]] + cs[1..];
    }
  }

  lemma FindAtEnd(data: seq<byte>, kind: nat, a: nat)
    requires At(data, a, [] + U16(CAT_END))
    ensures Find(data, kind, a) == None
  {
    assert [] + U16(CAT_END) == U16(CAT_END);
    ReadWritten16(data, a, CAT_END);
  }

  lemma FindCons(data: seq<byte>, c: Category, rest: seq<Category>, kind: nat, a: nat)
    requires CategoryFits(c) && ChainFits(rest) && c.kind != CAT_END && At(data, a, CategoryBytes(c))
    requires Find(data, kind, a + |CategoryBytes(c)|) == FirstOffset(rest, kind, a + |CategoryBytes(c)|)
    ensures ChainFits([c] + rest) && Find(data, kind, a) == FirstOffset([c] + rest, kind, a)
  {
    HeaderWords(data, a, c);
    assert ([c] + rest)[1..] == rest;
  }

  lemma FirstInChain(data: seq<byte>, cs: seq<Category>, a: nat)
    requires cs != [] && ChainFits(cs) && At(data, a, Chain(cs) + U16(CAT_END))
    ensures At(data, a, CategoryBytes(cs[0]))
    ensures ChainFits(cs[1..]) && At(data, a + |CategoryBytes(cs[0])|, Chain(cs[1..]) + U16(CAT_END))
  {
    hide At;
    hide CategoryBytes;
    ChainFront(cs);
    Associative(CategoryBytes(cs[0]), Chain(cs[1..]), U16(CAT_END));
    AtSplit(data, a, CategoryBytes(cs[0]), Chain(cs[1..]) + U16(CAT_END));
  }

  /** What FirstOffset means: the category there is the first of its kind, and lies there in the data. */
  lemma {:induction false} FirstOffsetMeaning(data: seq<byte>, cs: seq<Category>, kind: nat, a: nat) returns (i: nat)
    requires ChainFits(cs) && At(data, a, Chain(cs))
    ensures FirstOffset(cs, kind, a).None? <==> i == |cs|
    ensures i <= |cs| && forall j | 0 <= j < i :: cs[j].kind != kind
    ensures i < |cs| ==> cs[i].kind == kind && At(data, FirstOffset(cs, kind, a).value, CategoryBytes(cs[i]))
    decreases |cs|
  {
    hide At;
    hide CategoryBytes;
    hide Chain;
    i := 0;
    if cs != [] {
      var c, rest, next := cs[0], cs[1..], a + |CategoryBytes(cs[0])|;
      ChainSplit(data, cs, a);
      if c.kind != kind {
        var k := FirstOffsetMeaning(data, rest, kind, next);
        forall j | 0 <= j < k + 1 ensures cs[j].kind != kind {
          if j > 0 { assert rest[j - 1] == cs[j]; }
        }
        i := k + 1;
        assert FirstOffset(cs, kind, a) == FirstOffset(rest, kind, next);
        assert i < |cs| ==> cs[i] == rest[k];
      } else {
        assert FirstOffset(cs, kind, a) == Some(a);
      }
    }
  }

  lemma ChainSplit(data: seq<byte>, cs: seq<Category>, a: nat)
    requires cs != [] && ChainFits(cs) && At(data, a, Chain(cs))
    ensures ChainFits(cs[1..]) && At(data, a, CategoryBytes(cs[0]))
    ensures At(data, a + |CategoryBytes(cs[0])|, Chain(cs[1..]))
  {
    hide At;
    hide CategoryBytes;
    ChainFront(cs);
    AtSplit(data, a, CategoryBytes(cs[0]), Chain(cs[1..]));
  }

  // ---------- parse_strings ----------

  datatype ReadError = StructError | IndexError

  function TextsFrom(data: seq<byte>, ba: nat, n: nat): Result<seq<string>, ReadError>
    decreases n
  {
    if n == 0 then Ok([])
    else if ba >= |data| then Err(IndexError)
    else
      var end := ba + 1 + data[ba] as nat;
      var text := DecodeLatin1(data[ba + 1..if end <= |data| then end else |data|]);
      match TextsFrom(data, end, n - 1)
      case Err(e) => Err(e)
      case Ok(rest) => Ok([text] + rest)
  }

  /** The string list with the empty string at index 0; a string cut off by the end of the data is
      shortened, as a slice is. */
  function Strings(data: seq<byte>, start: nat): Result<seq<string>, ReadError> {
    if start + 4 > |data| then Err(StructError)
    else if start + 4 == |data| then Err(IndexError)
    else
      match TextsFrom(data, start + 5, data[start + 4] as nat)
      case Err(e) => Err(e)
      case Ok(rest) => Ok([""] + rest)
  }

  method ParseStrings(data: seq<byte>, start: nat) returns (r: Result<seq<string>, ReadError>)
    ensures r == Strings(data, start)
  {
    if start + 4 > |data| {
      return Err(StructError);
    }
    var ba: nat := start + 4;
    if ba >= |data| {
      return Err(IndexError);
    }
    var n := data[ba] as nat;
    ba := ba + 1;
    var strings := [""];
    ghost var all := TextsFrom(data, ba, n);
    for i := 0 to n
      invariant |strings| == i + 1
      invariant match TextsFrom(data, ba, n - i)
                case Err(e) => all == Err(e)
                case Ok(rest) => all.Ok? && [""] + all.value == strings + rest
    {
      if ba >= |data| {
        return Err(IndexError);
      }
      var length := data[ba] as nat;
      ba := ba + 1;
      var s := DecodeLatin1(data[ba..if ba + length <= |data| then ba + length else |data|]);
      ba := ba + length;
      strings := strings + [s];
    }
    assert strings + [] == strings;
    return Ok(strings);
  }

  // ---------- parse_general ----------

  datatype GeneralView = GeneralView(group: string, image: string, order: string, name: string)

  function Lookup(strings: seq<string>, index: nat): string {
    if index < |strings| then strings[index] else "N/A"
  }

  function General(data: seq<byte>, start: nat, strings: seq<string>): Result<GeneralView, ReadError> {
    if start + 4 > |data| then Err(StructError)
    else if start + 8 > |data| then Err(IndexError)
    else Ok(GeneralView(Lookup(strings, data[start + 4]), Lookup(strings, data[start + 5]),
                        Lookup(strings, data[start + 6]), Lookup(strings, data[start + 7])))
  }

  method ParseGeneral(data: seq<byte>, start: nat, strings: seq<string>) returns (r: Result<GeneralView, ReadError>)
    ensures r == General(data, start, strings)
  {
    if start + 4 > |data| {
      return Err(StructError);
    }
    var ba := start + 4;
    if ba + 4 > |data| {
      return Err(IndexError);
    }
    var group, image, order, name := data[ba], data[ba + 1], data[ba + 2], data[ba + 3];
    return Ok(GeneralView(Lookup(strings, group), Lookup(strings, image), Lookup(strings, order),
        Lookup(strings, name)));
  }

  // ---------- main ----------

  /** The bytes that the header lines read. */
  const HEADER_SIZE := 0x7E

  /** What the tool shows of an image after the header lines: nothing where a category is missing. */
  function Shown(data: seq<byte>): Result<Option<GeneralView>, ReadError> {
    if |data| < HEADER_SIZE then Err(StructError) else
    match Find(data, CAT_STRINGS, 0x80)
    case None => Ok(None)
    case Some(s) =>
      match Strings(data, s)
      case Err(e) => Err(e)
      case Ok(strings) =>
        match Find(data, CAT_GENERAL, 0x80)
        case None => Ok(None)
        case Some(g) =>
          match General(data, g, strings)
          case Err(e) => Err(e)
          case Ok(view) => Ok(Some(view))
  }

  method ShowImage(data: seq<byte>) returns (r: Result<Option<GeneralView>, ReadError>)
    ensures r == Shown(data)
  {
    if |data| < HEADER_SIZE {
      return Err(StructError);
    }
    var s := FindCategory(data, CAT_STRINGS);
    if s.None? {
      return Ok(None);
    }
    var strings :- ParseStrings(data, s.value);
    var g := FindCategory(data, CAT_GENERAL);
    if g.None? {
      return Ok(None);
    }
    var view :- ParseGeneral(data, g.value, strings);
    return Ok(Some(view));
  }
}
