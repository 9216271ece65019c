// The texts the JSON reader accepts, as a grammar: a text is read as a value if and only if it is the text
// of a tree of that value.
module JsonGrammar {
  import opened Utf8
  import opened Json

  // ---- strings --------------------------------------------------------------

  /** What stands between the quotes: a byte, one of the short escapes, a code unit, or two of them that
      begin as a surrogate pair does. */
  datatype Piece = Plain(b: byte) | Short(i: nat) | Unit(hex: seq<byte>) | Pair(hi: seq<byte>, lo: seq<byte>)

  /** Quote, backslash, slash and the letters b, f, n, r, t, and what they stand for. */
  const SHORT: seq<byte> := [0x22, 0x5C, 0x2F, 0x62, 0x66, 0x6E, 0x72, 0x74]
  const MEANT: seq<byte> := [0x22, 0x5C, 0x2F, 0x08, 0x0C, 0x0A, 0x0D, 0x09]

  predicate IsHex(b: byte) {
    0x30 <= b <= 0x39 || 0x41 <= b <= 0x46 || 0x61 <= b <= 0x66
  }

  /** Capital and small letters alike. */
  function HexOf(b: byte): nat
    requires IsHex(b)
  {
    if b <= 0x39 then b % 0x10 else b % 0x10 + 9
  }

  predicate FourHex(h: seq<byte>) {
    |h| == 4 && forall i | 0 <= i < 4 :: IsHex(h[i])
  }

  function UnitOf(h: seq<byte>): (v: nat)
    requires FourHex(h)
    ensures v < 0x1_0000
  {
    0x1000 * HexOf(h[0]) + 0x100 * HexOf(h[1]) + 0x10 * HexOf(h[2]) + HexOf(h[3])
  }

  predicate HighSurrogate(v: nat) {
    0xD800 <= v <= 0xDBFF
  }

  predicate LowSurrogate(v: nat) {
    0xDC00 <= v <= 0xDFFF
  }

  function PieceText(p: Piece): (t: seq<byte>)
    requires PieceOk(p)
    ensures |t| > 0 && t[0] != QUOTE
  {
    match p
    case Plain(b) => [b]
    case Short(i) => [BACKSLASH, SHORT[i]]
    case Unit(h) => [BACKSLASH, 0x75] + h
    case Pair(a, b) => [BACKSLASH, 0x75] + a + [BACKSLASH, 0x75] + b
  }

  predicate PieceOk(p: Piece) {
    match p
    case Plain(b) => b != QUOTE && b != BACKSLASH
    case Short(i) => i < 8
    case Unit(h) => FourHex(h)
    case Pair(a, b) => FourHex(a) && FourHex(b) && HighSurrogate(UnitOf(a))
  }

  /** A code unit that could begin a pair, followed by another one, is a pair. */
  predicate Unpaired(p: Piece, rest: seq<Piece>)
    requires PieceOk(p)
  {
    p.Unit? && HighSurrogate(UnitOf(p.hex)) ==> rest == [] || !(rest[0].Unit? || rest[0].Pair?)
  }

  /** The character meant; surrogates that form no pair are replaced. */
  function CharOf(p: Piece): char
    requires PieceOk(p) && (p.Unit? || p.Pair?)
  {
    match p
    case Unit(h) =>
      var v := UnitOf(h);
      if HighSurrogate(v) || LowSurrogate(v) then '\U{FFFD}' else v as char
    case Pair(a, b) =>
      if LowSurrogate(UnitOf(b)) then
        Paired(UnitOf(a), UnitOf(b));
        (0x1_0000 + UnitOf(a) % 0x400 * 0x400 + UnitOf(b) % 0x400) as char
      else '\U{FFFD}'
  }

  function PieceBytes(p: Piece): seq<byte>
    requires PieceOk(p)
  {
    match p
    case Plain(b) => [b]
    case Short(i) => [MEANT[i]]
    case _ => Encode(CharOf(p))
  }

  lemma {:induction false} Paired(a: nat, b: nat)
    requires HighSurrogate(a) && LowSurrogate(b)
    ensures 0x1_0000 <= 0x1_0000 + a % 0x400 * 0x400 + b % 0x400 < 0x11_0000
    ensures a % 0x400 == a - 0xD800 && b % 0x400 == b - 0xDC00
  {
  }

  predicate PiecesOk(ps: seq<Piece>)
    decreases |ps|
  {
    ps == [] || (PieceOk(ps[0]) && Unpaired(ps[0], ps[1..]) && PiecesOk(ps[1..]))
  }

  function BodyText(ps: seq<Piece>): seq<byte>
    requires PiecesOk(ps)
    decreases |ps|
  {
    if ps == [] then [] else PieceText(ps[0]) + BodyText(ps[1..])
  }

  function BodyBytes(ps: seq<Piece>): seq<byte>
    requires PiecesOk(ps)
    decreases |ps|
  {
    if ps == [] then [] else PieceBytes(ps[0]) + BodyBytes(ps[1..])
  }

  predicate StringOk(ps: seq<Piece>) {
    PiecesOk(ps) && WellFormed(BodyBytes(ps))
  }

  function StringText(ps: seq<Piece>): (t: seq<byte>)
    requires PiecesOk(ps)
    ensures |t| >= 2
  {
    [QUOTE] + BodyText(ps) + [QUOTE]
  }

  // ---- trees ----------------------------------------------------------------

  datatype Tree =
    | NullTree | TrueTree | FalseTree | NumTree(text: seq<byte>) | StrTree(ps: seq<Piece>)
      | NoItems(gap: seq<byte>) | ArrTree(items: Items) | NoFields(gap: seq<byte>) | ObjTree(fields: Fields)

  /** Every value with the space before and after it. */
  datatype Items = LastItem(before: seq<byte>, t: Tree, after: seq<byte>)
                 | MoreItems(before: seq<byte>, t: Tree, after: seq<byte>, rest: Items)

  datatype Entry = Entry(before: seq<byte>, key: seq<Piece>, mid: seq<byte>, gap: seq<byte>, t: Tree, after: seq<byte>)

  datatype Fields = LastField(e: Entry) | MoreFields(e: Entry, rest: Fields)

  predicate Spaces(s: seq<byte>) {
    forall i | 0 <= i < |s| :: IsSpace(s[i])
  }

  predicate NumberText(good: seq<byte> -> bool, t: seq<byte>) {
    && t != [] && (t[0] == 0x2D || IsDigit(t[0])) && (forall i | 0 <= i < |t| :: InNumber(t[i])) && good(t)
  }

  predicate TreeOk(good: seq<byte> -> bool, t: Tree) {
    match t
    case NumTree(text) => NumberText(good, text)
    case StrTree(ps) => StringOk(ps)
    case NoItems(gap) => Spaces(gap)
    case ArrTree(items) => ItemsOk(good, items)
    case NoFields(gap) => Spaces(gap)
    case ObjTree(fields) => FieldsOk(good, fields)
    case _ => true
  }

  predicate ItemsOk(good: seq<byte> -> bool, it: Items) {
    Spaces(it.before) && TreeOk(good, it.t) && Spaces(it.after) && (it.MoreItems? ==> ItemsOk(good, it.rest))
  }

  predicate EntryOk(good: seq<byte> -> bool, e: Entry) {
    Spaces(e.before) && StringOk(e.key) && Spaces(e.mid) && Spaces(e.gap) && TreeOk(good, e.t) && Spaces(e.after)
  }

  predicate FieldsOk(good: seq<byte> -> bool, fs: Fields) {
    EntryOk(good, fs.e) && (fs.MoreFields? ==> FieldsOk(good, fs.rest))
  }

  function TreeText(good: seq<byte> -> bool, t: Tree): seq<byte>
    requires TreeOk(good, t)
  {
    match t
    case NullTree => [0x6E, 0x75, 0x6C, 0x6C]
    case TrueTree => [0x74, 0x72, 0x75, 0x65]
    case FalseTree => [0x66, 0x61, 0x6C, 0x73, 0x65]
    case NumTree(text) => text
    case StrTree(ps) => StringText(ps)
    case NoItems(gap) => [0x5B] + (gap + [0x5D])
    case ArrTree(items) => [0x5B] + ItemsText(good, items)
    case NoFields(gap) => [0x7B] + (gap + [0x7D])
    case ObjTree(fields) => [0x7B] + FieldsText(good, fields)
  }

  function ItemsText(good: seq<byte> -> bool, it: Items): seq<byte>
    requires ItemsOk(good, it)
  {
    it.before + (TreeText(good, it.t) + (it.after
      + (if it.LastItem? then [0x5D] else [0x2C] + ItemsText(good, it.rest))))
  }

  /** A key, a colon, a value; the space after it comes with what ends it. */
  function EntryText(good: seq<byte> -> bool, e: Entry): seq<byte>
    requires EntryOk(good, e)
  {
    e.before + (StringText(e.key) + (e.mid + ([0x3A] + (e.gap + TreeText(good, e.t)))))
  }

  function FieldsText(good: seq<byte> -> bool, fs: Fields): seq<byte>
    requires FieldsOk(good, fs)
  {
    EntryText(good, fs.e) + (fs.e.after + (if fs.LastField? then [0x7D] else [0x2C] + FieldsText(good, fs.rest)))
  }

  function TreeValue(good: seq<byte> -> bool, t: Tree): Value
    requires TreeOk(good, t)
  {
    match t
    case NullTree => Null
    case TrueTree => Bool(true)
    case FalseTree => Bool(false)
    case NumTree(text) => Num(text)
    case StrTree(ps) => Str(Lossy(BodyBytes(ps)))
    case NoItems(_) => Arr([])
    case ArrTree(items) => Arr(ItemValues(good, items))
    case NoFields(_) => Obj([])
    case ObjTree(fields) => Obj(FieldValues(good, fields))
  }

  function ItemValues(good: seq<byte> -> bool, it: Items): seq<Value>
    requires ItemsOk(good, it)
  {
    [TreeValue(good, it.t)] + if it.LastItem? then [] else ItemValues(good, it.rest)
  }

  function EntryValue(good: seq<byte> -> bool, e: Entry): (string, Value)
    requires EntryOk(good, e)
  {
    (Lossy(BodyBytes(e.key)), TreeValue(good, e.t))
  }

  function FieldValues(good: seq<byte> -> bool, fs: Fields): seq<(string, Value)>
    requires FieldsOk(good, fs)
  {
    [EntryValue(good, fs.e)] + if fs.LastField? then [] else FieldValues(good, fs.rest)
  }

  // ---- text in place --------------------------------------------------------

  ghost predicate At(s: seq<byte>, pos: nat, t: seq<byte>) {
    pos + |t| <= |s| && s[pos..pos + |t|] == t
  }

  lemma {:induction false} AtSplit(s: seq<byte>, pos: nat, a: seq<byte>, b: seq<byte>)
    ensures At(s, pos, a + b) <==> At(s, pos, a) && At(s, pos + |a|, b)
  {
    if pos + |a| + |b| <= |s| {
      var whole := s[pos..pos + |a + b|];
      assert whole == s[pos..pos + |a|] + s[pos + |a|..pos + |a| + |b|];
      assert whole[..|a|] == s[pos..pos + |a|] && whole[|a|..] == s[pos + |a|..pos + |a| + |b|];
      assert (a + b)[..|a|] == a && (a + b)[|a|..] == b;
    }
  }

  lemma {:induction false} AtOne(s: seq<byte>, pos: nat, b: byte)
    ensures At(s, pos, [b]) <==> pos < |s| && s[pos] == b
  {
    if pos < |s| { assert s[pos..pos + 1] == [s[pos]]; }
  }

  lemma {:induction false} AtNothing(s: seq<byte>, pos: nat)
    ensures At(s, pos, []) <==> pos <= |s|
  {
  }

  lemma {:induction false} SkipsGap(s: seq<byte>, pos: nat, gap: seq<byte>)
    requires Spaces(gap) && At(s, pos, gap)
    ensures SkipSpace(s, pos) == SkipSpace(s, pos + |gap|)
    decreases |gap|
  {
    if gap != [] {
      AtSplit(s, pos, gap[..1], gap[1..]);
      assert gap == gap[..1] + gap[1..] && s[pos..pos + 1][0] == gap[0];
      SkipsGap(s, pos + 1, gap[1..]);
    }
  }

  /** The space before something else. */
  lemma {:induction false} SkipsTo(s: seq<byte>, pos: nat, gap: seq<byte>)
    requires Spaces(gap) && At(s, pos, gap) && (pos + |gap| < |s| ==> !IsSpace(s[pos + |gap|]))
    ensures SkipSpace(s, pos) == pos + |gap|
  {
    SkipsGap(s, pos, gap);
  }

  lemma {:induction false} SkipBack(s: seq<byte>, pos: nat)
    requires pos <= |s|
    ensures var p := SkipSpace(s, pos); Spaces(s[pos..p]) && At(s, pos, s[pos..p]) && pos + |s[pos..p]| == p
    decreases |s| - pos
  {
    if pos < |s| && IsSpace(s[pos]) {
      SkipBack(s, pos + 1);
      assert s[pos..SkipSpace(s, pos)] == [s[pos]] + s[pos + 1..SkipSpace(s, pos)];
    }
  }

  // ---- hex digits -----------------------------------------------------------

  lemma {:induction false} DigitIs(b: byte)
    ensures HexDigit(b) == if IsHex(b) then Json.Ok(HexOf(b)) else Json.Err(BadHex)
  {
  }

  /** One digit more. */
  lemma {:induction false} HexStep(s: seq<byte>, pos: nat, n: nat, v: nat)
    requires pos <= |s|
    ensures Hex(s, pos, n, v) ==
      if n == 0 then Json.Ok(v)
      else if pos == |s| || !IsHex(s[pos]) then Json.Err(BadHex)
      else Hex(s, pos + 1, n - 1, v * 16 + HexOf(s[pos]))
  {
    if pos < |s| { DigitIs(s[pos]); }
    hide HexDigit, HexOf, IsHex;
  }

  lemma {:induction false} HexReads(s: seq<byte>, pos: nat)
    requires pos <= |s|
    ensures Hex(s, pos, 4, 0).Ok? <==> pos + 4 <= |s| && FourHex(s[pos..pos + 4])
    ensures pos + 4 <= |s| && FourHex(s[pos..pos + 4]) ==> Hex(s, pos, 4, 0) == Json.Ok(UnitOf(s[pos..pos + 4]))
  {
    hide Hex, HexOf, IsHex;
    HexStep(s, pos, 4, 0);
    if pos < |s| && IsHex(s[pos]) {
      var a := HexOf(s[pos]);
      HexStep(s, pos + 1, 3, a);
      if pos + 1 < |s| && IsHex(s[pos + 1]) {
        var b := a * 16 + HexOf(s[pos + 1]);
        HexStep(s, pos + 2, 2, b);
        if pos + 2 < |s| && IsHex(s[pos + 2]) {
          var c := b * 16 + HexOf(s[pos + 2]);
          HexStep(s, pos + 3, 1, c);
          if pos + 3 < |s| && IsHex(s[pos + 3]) { HexStep(s, pos + 4, 0, c * 16 + HexOf(s[pos + 3])); }
        }
      }
    }
    HexDigits(s, pos);
  }

  lemma {:induction false} HexDigits(s: seq<byte>, pos: nat)
    ensures pos + 4 <= |s| ==>
              (FourHex(s[pos..pos + 4]) <==>
                 IsHex(s[pos]) && IsHex(s[pos + 1]) && IsHex(s[pos + 2]) && IsHex(s[pos + 3]))
  {
    hide IsHex;
    if pos + 4 <= |s| {
      var h := s[pos..pos + 4];
      assert h[0] == s[pos] && h[1] == s[pos + 1] && h[2] == s[pos + 2] && h[3] == s[pos + 3];
    }
  }

  // ---- strings read ---------------------------------------------------------

  /** Whether a code unit escape follows. */
  predicate UnitNext(s: seq<byte>, pos: nat) {
    pos + 2 <= |s| && s[pos] == BACKSLASH && s[pos + 1] == 0x75
  }

  /** Escape `i` of the short ones. */
  lemma {:induction false} ShortIs(e: byte)
    ensures SimpleEscape(e).Ok? <==> exists i :: 0 <= i < 8 && SHORT[i] == e
    ensures forall i | 0 <= i < 8 :: SHORT[i] == e ==> SimpleEscape(e) == Json.Ok(MEANT[i])
    ensures forall i | 0 <= i < 8 :: SHORT[i] != 0x75
  {
    if SimpleEscape(e).Ok? {
      var i := ShortOf(e);
    }
  }

  lemma {:induction false} ShortOf(e: byte) returns (i: nat)
    requires SimpleEscape(e).Ok?
    ensures i < 8 && SHORT[i] == e && SimpleEscape(e) == Json.Ok(MEANT[i])
  {
    i := if e == 0x22 then 0 else if e == 0x5C then 1 else if e == 0x2F then 2 else if e == 0x62 then 3
         else if e == 0x66 then 4 else if e == 0x6E then 5 else if e == 0x72 then 6 else 7;
  }

  /** An escape of code units, read. */
  lemma {:induction false} UnitReads(s: seq<byte>, pos: nat)
    requires pos + 4 <= |s| && FourHex(s[pos..pos + 4])
    requires !(HighSurrogate(UnitOf(s[pos..pos + 4])) && UnitNext(s, pos + 4))
    ensures PieceOk(Unit(s[pos..pos + 4]))
    ensures UnicodeEscape(s, pos) == Json.Ok((CharOf(Unit(s[pos..pos + 4])), pos + 4))
  {
    hide Hex, UnitOf, FourHex;
    HexReads(s, pos);
  }

  lemma {:induction false} PairReads(s: seq<byte>, pos: nat)
    requires pos + 10 <= |s| && FourHex(s[pos..pos + 4]) && HighSurrogate(UnitOf(s[pos..pos + 4]))
    requires UnitNext(s, pos + 4) && FourHex(s[pos + 6..pos + 10])
    ensures PieceOk(Pair(s[pos..pos + 4], s[pos + 6..pos + 10]))
    ensures UnicodeEscape(s, pos) == Json.Ok((CharOf(Pair(s[pos..pos + 4], s[pos + 6..pos + 10])), pos + 10))
  {
    hide Hex, UnitOf, FourHex;
    HexReads(s, pos);
    HexReads(s, pos + 6);
    var a, b := UnitOf(s[pos..pos + 4]), UnitOf(s[pos + 6..pos + 10]);
    if LowSurrogate(b) { Paired(a, b); }
  }

  /** Escapes of code units that are read are one of the two. */
  lemma {:induction false} UnitBack(s: seq<byte>, pos: nat)
    requires pos <= |s| && UnicodeEscape(s, pos).Ok?
    ensures pos + 4 <= |s| && FourHex(s[pos..pos + 4])
    ensures HighSurrogate(UnitOf(s[pos..pos + 4])) && UnitNext(s, pos + 4) ==>
              pos + 10 <= |s| && FourHex(s[pos + 6..pos + 10])
  {
    hide Hex, UnitOf, FourHex, CodePoint;
    HexReads(s, pos);
    if UnitNext(s, pos + 4) { HexReads(s, pos + 6); }
  }

  /** One piece read: the bytes it stands for, and the position after it. */
  lemma {:induction false} PieceReads(s: seq<byte>, pos: nat, p: Piece, out: seq<byte>)
    requires PieceOk(p) && At(s, pos, PieceText(p))
    requires p.Unit? && HighSurrogate(UnitOf(p.hex)) ==> !UnitNext(s, pos + |PieceText(p)|)
    ensures pos + |PieceText(p)| <= |s|
    ensures StringFrom(s, pos, out) == StringFrom(s, pos + |PieceText(p)|, out + PieceBytes(p))
  {
    hide *;
    var t := PieceText(p);
    Whole(s, pos, t);
    PieceIs(p);
    match p
    case Plain(b) =>
      StringStep(s, pos, out);
    case Short(i) =>
      assert s[pos + 1] == t[1];
      ShortIs(t[1]);
      StringStep(s, pos, out);
    case Unit(h) =>
      assert s[pos + 1] == t[1];
      assert s[pos + 2..pos + 6] == t[2..6] == h;
      UnitReads(s, pos + 2);
      StringStep(s, pos, out);
    case Pair(a, b) =>
      assert s[pos + 1] == t[1] && s[pos + 6] == t[6] && s[pos + 7] == t[7];
      assert s[pos + 2..pos + 6] == t[2..6] == a;
      assert s[pos + 8..pos + 12] == t[8..12] == b;
      NextUnit(s, pos + 6);
      PairReads(s, pos + 2);
      StringStep(s, pos, out);
  }

  lemma {:induction false} NextUnit(s: seq<byte>, pos: nat)
    ensures UnitNext(s, pos) <==> pos + 2 <= |s| && s[pos] == 0x5C && s[pos + 1] == 0x75
  {
  }

  lemma {:induction false} Whole(s: seq<byte>, pos: nat, t: seq<byte>)
    requires At(s, pos, t)
    ensures pos + |t| <= |s| && s[pos..pos + |t|] == t && forall i {:trigger t[i]} | 0 <= i < |t| :: s[pos + i] == t[i]
  {
    forall i {:trigger t[i]} | 0 <= i < |t|
      ensures s[pos + i] == t[i]
    {
      assert s[pos..pos + |t|][i] == s[pos + i];
    }
  }

  lemma {:induction false} PieceIs(p: Piece)
    requires PieceOk(p)
    ensures match p
            case Plain(b) => PieceText(p) == [b] && PieceBytes(p) == [b] && b != 0x22 && b != 0x5C
            case Short(i) => i < 8 && PieceText(p) == [0x5C, SHORT[i]] && PieceBytes(p) == [MEANT[i]]
            case Unit(h) => |h| == 4 && FourHex(h) && PieceText(p) == [0x5C, 0x75] + h
              && PieceBytes(p) == Encode(CharOf(p))
            case Pair(a, b) =>
              && |a| == 4 && |b| == 4 && FourHex(a) && FourHex(b) && HighSurrogate(UnitOf(a))
              && PieceText(p) == [0x5C, 0x75] + a + [0x5C, 0x75] + b && PieceBytes(p) == Encode(CharOf(p))
  {
    hide IsHex, UnitOf, Encode;
  }

  lemma {:induction false} StringStep(s: seq<byte>, pos: nat, out: seq<byte>)
    requires pos < |s|
    ensures s[pos] == 0x22 ==> StringFrom(s, pos, out) == Json.Ok((out, pos + 1))
    ensures s[pos] != 0x22 && s[pos] != 0x5C ==> StringFrom(s, pos, out) == StringFrom(s, pos + 1, out + [s[pos]])
    ensures s[pos] == 0x5C && pos + 1 == |s| ==> StringFrom(s, pos, out).Err?
    ensures s[pos] == 0x5C && pos + 1 < |s| && s[pos + 1] == 0x75 ==>
              var u := UnicodeEscape(s, pos + 2);
              if u.Err? then StringFrom(s, pos, out).Err?
              else StringFrom(s, pos, out) == StringFrom(s, u.value.1, out + Encode(u.value.0))
    ensures s[pos] == 0x5C && pos + 1 < |s| && s[pos + 1] != 0x75 ==>
              var e := SimpleEscape(s[pos + 1]);
              if e.Err? then StringFrom(s, pos, out).Err?
              else StringFrom(s, pos, out) == StringFrom(s, pos + 2, out + [e.value])
  {
    hide UnicodeEscape, SimpleEscape, Encode;
  }

  lemma {:induction false} BodyIs(ps: seq<Piece>)
    requires PiecesOk(ps)
    ensures ps == [] ==> BodyText(ps) == [] && BodyBytes(ps) == []
    ensures ps != [] ==>
              && PieceOk(ps[0]) && Unpaired(ps[0], ps[1..]) && PiecesOk(ps[1..])
              && BodyText(ps) == PieceText(ps[0]) + BodyText(ps[1..])
              && BodyBytes(ps) == PieceBytes(ps[0]) + BodyBytes(ps[1..])
  {
  }

  /** What follows a piece: the quote, or the piece after it. */
  lemma {:induction false} NotPaired(s: seq<byte>, pos: nat, p: Piece, ps: seq<Piece>)
    requires PieceOk(p) && Unpaired(p, ps) && PiecesOk(ps) && At(s, pos, BodyText(ps) + [QUOTE])
    requires p.Unit? && HighSurrogate(UnitOf(p.hex))
    ensures !UnitNext(s, pos)
  {
    hide UnitOf, FourHex, At;
    var t := BodyText(ps) + [QUOTE];
    Whole(s, pos, t);
    assert s[pos + 0] == t[0];
    if ps != [] {
      PieceIs(ps[0]);
      var q := PieceText(ps[0]);
      assert t[0] == q[0];
      if ps[0].Short? {
        assert s[pos + 1] == t[1] == q[1];
        ShortIs(q[1]);
      }
    }
  }

  lemma {:induction false} BodyReads(s: seq<byte>, pos: nat, ps: seq<Piece>, out: seq<byte>)
    requires PiecesOk(ps) && At(s, pos, BodyText(ps) + [QUOTE])
    ensures StringFrom(s, pos, out) == Json.Ok((out + BodyBytes(ps), pos + |BodyText(ps)| + 1))
    ensures pos <= |s|
    decreases |ps|
  {
    hide *;
    BodyIs(ps);
    AtSplit(s, pos, BodyText(ps), [QUOTE]);
    if ps == [] {
      assert [] + [QUOTE] == [QUOTE];
      AtOne(s, pos, QUOTE);
      StringStep(s, pos, out);
      assert out + [] == out;
      QuoteIs();
    } else {
      var p, rest := ps[0], ps[1..];
      var n := |PieceText(p)|;
      assert BodyText(ps) + [QUOTE] == PieceText(p) + (BodyText(rest) + [QUOTE]);
      AtSplit(s, pos, PieceText(p), BodyText(rest) + [QUOTE]);
      if p.Unit? && HighSurrogate(UnitOf(p.hex)) { NotPaired(s, pos + n, p, rest); }
      PieceReads(s, pos, p, out);
      BodyReads(s, pos + n, rest, out + PieceBytes(p));
      assert out + PieceBytes(p) + BodyBytes(rest) == out + (PieceBytes(p) + BodyBytes(rest));
    }
  }

  lemma {:induction false} QuoteIs()
    ensures QUOTE == 0x22 && BACKSLASH == 0x5C
  {
  }

  lemma {:induction false} StringReads(s: seq<byte>, pos: nat, ps: seq<Piece>)
    requires StringOk(ps) && At(s, pos, StringText(ps))
    ensures pos < |s| && s[pos] == QUOTE
    ensures ParseString(s, pos) == Json.Ok((Lossy(BodyBytes(ps)), pos + |StringText(ps)|))
  {
    hide BodyText, BodyBytes, PiecesOk, At, StringFrom, WellFormed, Lossy;
    var body := BodyText(ps) + [QUOTE];
    assert StringText(ps) == [QUOTE] + body;
    AtSplit(s, pos, [QUOTE], body);
    AtOne(s, pos, QUOTE);
    BodyReads(s, pos + 1, ps, []);
    assert [] + BodyBytes(ps) == BodyBytes(ps);
  }

  // ---- strings read back ----------------------------------------------------

  /** The piece a string goes on with. */
  lemma {:induction false} PieceBack(s: seq<byte>, pos: nat, out: seq<byte>) returns (p: Piece)
    requires pos < |s| && s[pos] != QUOTE && StringFrom(s, pos, out).Ok?
    ensures PieceOk(p) && At(s, pos, PieceText(p))
    ensures p.Unit? && HighSurrogate(UnitOf(p.hex)) ==> !UnitNext(s, pos + |PieceText(p)|)
  {
    hide *;
    QuoteIs();
    StringStep(s, pos, out);
    if s[pos] != BACKSLASH {
      p := Plain(s[pos]);
      PlainFits(s[pos]);
      AtOne(s, pos, s[pos]);
    } else if s[pos + 1] != 0x75 {
      var i := ShortOf(s[pos + 1]);
      p := Short(i);
      ShortFits(i);
      Standing(s, pos, PieceText(p));
    } else {
      UnitBack(s, pos + 2);
      var h := s[pos + 2..pos + 6];
      NextUnit(s, pos + 6);
      if HighSurrogate(UnitOf(h)) && UnitNext(s, pos + 6) {
        var l := s[pos + 8..pos + 12];
        p := Pair(h, l);
        PairFits(h, l);
        assert s[pos..pos + 12] == [0x5C, 0x75] + h + [0x5C, 0x75] + l;
        Standing(s, pos, PieceText(p));
      } else {
        p := Unit(h);
        UnitFits(h);
        assert s[pos..pos + 6] == [0x5C, 0x75] + h;
        Standing(s, pos, PieceText(p));
      }
    }
  }

  lemma {:induction false} Standing(s: seq<byte>, pos: nat, t: seq<byte>)
    requires pos + |t| <= |s| && s[pos..pos + |t|] == t
    ensures At(s, pos, t)
  {
  }

  lemma {:induction false} PlainFits(b: byte)
    requires b != 0x22 && b != 0x5C
    ensures PieceOk(Plain(b)) && PieceText(Plain(b)) == [b]
  {
  }

  lemma {:induction false} ShortFits(i: nat)
    requires i < 8
    ensures PieceOk(Short(i)) && PieceText(Short(i)) == [0x5C, SHORT[i]]
  {
  }

  lemma {:induction false} UnitFits(h: seq<byte>)
    requires FourHex(h)
    ensures PieceOk(Unit(h)) && |h| == 4 && PieceText(Unit(h)) == [0x5C, 0x75] + h
  {
    hide IsHex;
  }

  lemma {:induction false} PairFits(h: seq<byte>, l: seq<byte>)
    requires FourHex(h) && FourHex(l) && HighSurrogate(UnitOf(h))
    ensures PieceOk(Pair(h, l)) && |h| == 4 && |l| == 4
    ensures PieceText(Pair(h, l)) == [0x5C, 0x75] + h + [0x5C, 0x75] + l
  {
    hide IsHex, UnitOf;
  }

  lemma {:induction false} BodyBack(s: seq<byte>, pos: nat, out: seq<byte>) returns (ps: seq<Piece>)
    requires pos <= |s| && StringFrom(s, pos, out).Ok?
    ensures PiecesOk(ps) && At(s, pos, BodyText(ps) + [QUOTE])
    decreases |s| - pos
  {
    hide *;
    NotEnded(s, pos, out);
    if s[pos] == QUOTE {
      ps := [];
      NoPieces();
      assert [] + [QUOTE] == [QUOTE];
      AtOne(s, pos, QUOTE);
    } else {
      var p := PieceBack(s, pos, out);
      PieceReads(s, pos, p, out);
      TextLonger(p);
      var q := pos + |PieceText(p)|;
      var rest := BodyBack(s, q, out + PieceBytes(p));
      ps := [p] + rest;
      AtSplit(s, q, BodyText(rest), [QUOTE]);
      PiecePush(s, q, p, rest);
      assert BodyText(ps) + [QUOTE] == PieceText(p) + (BodyText(rest) + [QUOTE]);
      AtSplit(s, pos, PieceText(p), BodyText(rest) + [QUOTE]);
    }
  }

  lemma {:induction false} TextLonger(p: Piece)
    requires PieceOk(p)
    ensures |PieceText(p)| > 0
  {
  }

  lemma {:induction false} NotEnded(s: seq<byte>, pos: nat, out: seq<byte>)
    requires pos <= |s| && StringFrom(s, pos, out).Ok?
    ensures pos < |s|
  {
  }

  lemma {:induction false} NoPieces()
    ensures PiecesOk([]) && BodyText([]) == []
  {
  }

  lemma {:induction false} PiecePush(s: seq<byte>, pos: nat, p: Piece, rest: seq<Piece>)
    requires PieceOk(p) && PiecesOk(rest) && At(s, pos, BodyText(rest))
    requires p.Unit? && HighSurrogate(UnitOf(p.hex)) ==> !UnitNext(s, pos)
    ensures PiecesOk([p] + rest) && BodyText([p] + rest) == PieceText(p) + BodyText(rest)
  {
    hide PieceText, PieceOk, At, UnitOf;
    assert ([p] + rest)[1..] == rest;
    if rest != [] && (rest[0].Unit? || rest[0].Pair?) {
      var t := BodyText(rest);
      PieceIs(rest[0]);
      Whole(s, pos, t);
      assert t[0] == PieceText(rest[0])[0] && t[1] == PieceText(rest[0])[1];
      assert s[pos + 0] == t[0] && s[pos + 1] == t[1];
    }
  }

  lemma {:induction false} StringBack(s: seq<byte>, pos: nat) returns (ps: seq<Piece>)
    requires pos < |s| && s[pos] == QUOTE && ParseString(s, pos).Ok?
    ensures StringOk(ps) && At(s, pos, StringText(ps))
  {
    hide *;
    StringParts(s, pos);
    ps := BodyBack(s, pos + 1, []);
    BodyReads(s, pos + 1, ps, []);
    assert [] + BodyBytes(ps) == BodyBytes(ps);
    TextParts(ps);
    AtOne(s, pos, QUOTE);
    AtSplit(s, pos, [QUOTE], BodyText(ps) + [QUOTE]);
  }

  lemma {:induction false} StringParts(s: seq<byte>, pos: nat)
    requires pos < |s| && ParseString(s, pos).Ok?
    ensures StringFrom(s, pos + 1, []).Ok? && WellFormed(StringFrom(s, pos + 1, []).value.0)
  {
    hide StringFrom, WellFormed;
  }

  lemma {:induction false} TextParts(ps: seq<Piece>)
    requires PiecesOk(ps)
    ensures StringText(ps) == [QUOTE] + (BodyText(ps) + [QUOTE])
    ensures WellFormed(BodyBytes(ps)) ==> StringOk(ps)
  {
    hide BodyText, WellFormed, BodyBytes, PiecesOk;
  }

  // ---- values read ----------------------------------------------------------

  lemma {:induction false} NumberReads(good: seq<byte> -> bool, s: seq<byte>, pos: nat, t: seq<byte>)
    requires NumberText(good, t) && At(s, pos, t) && (pos + |t| == |s| || !InNumber(s[pos + |t|]))
    ensures pos < |s| && ParseNumber(good, s, pos) == Json.Ok((Num(t), pos + |t|))
  {
    hide InNumber;
    Whole(s, pos, t);
    assert s[pos + 0] == t[0];
    var at := if s[pos] == 0x2D then pos + 1 else pos;
    forall i | at <= i < pos + |t|
      ensures InNumber(s[i])
    {
      assert s[pos + (i - pos)] == t[i - pos];
    }
    NumberStops(s, at, pos + |t|);
  }

  lemma {:induction false} NumberStops(s: seq<byte>, at: nat, end: nat)
    requires at <= end <= |s| && (forall i | at <= i < end :: InNumber(s[i])) && (end == |s| || !InNumber(s[end]))
    ensures NumberEnd(s, at) == end
    decreases end - at
  {
    if at < end { NumberStops(s, at + 1, end); }
  }

  lemma {:induction false} NumberBack(good: seq<byte> -> bool, s: seq<byte>, pos: nat)
    requires pos < |s| && (s[pos] == 0x2D || IsDigit(s[pos])) && ParseNumber(good, s, pos).Ok?
    ensures var end := ParseNumber(good, s, pos).value.1;
      && pos < end <= |s| && NumberText(good, s[pos..end]) && ParseNumber(good, s, pos).value.0 == Num(s[pos..end])
  {
  }

  /** The first byte of a value tells its kind. */
  predicate Begins(b: byte, t: Tree) {
    match t
    case NullTree => b == 0x6E
    case TrueTree => b == 0x74
    case FalseTree => b == 0x66
    case NumTree(_) => b == 0x2D || IsDigit(b)
    case StrTree(_) => b == QUOTE
    case NoItems(_) => b == 0x5B
    case ArrTree(_) => b == 0x5B
    case _ => b == 0x7B
  }

  lemma {:induction false} FirstByte(good: seq<byte> -> bool, s: seq<byte>, pos: nat, t: Tree)
    requires TreeOk(good, t) && At(s, pos, TreeText(good, t))
    ensures pos < |s| && Begins(s[pos], t) && !IsSpace(s[pos]) && !(s[pos] in {0x5D, 0x7D, 0x2C, 0x3A})
  {
    hide ItemsText, FieldsText, StringText, ItemsOk, FieldsOk, StringOk;
    Whole(s, pos, TreeText(good, t));
    assert TreeText(good, t) != [] && s[pos + 0] == TreeText(good, t)[0];
    if t.StrTree? { StringFirst(t.ps); }
  }

  lemma {:induction false} StringFirst(ps: seq<Piece>)
    requires StringOk(ps)
    ensures PiecesOk(ps) && StringText(ps)[0] == QUOTE
  {
  }

  /** A text ends here for a number, too. */
  ghost predicate Ended(s: seq<byte>, pos: nat) {
    pos <= |s| && (pos < |s| ==> !InNumber(s[pos]))
  }

  /** Space and then a bracket, a comma or a colon. */
  lemma {:induction false} GapEnds(s: seq<byte>, pos: nat, gap: seq<byte>, b: byte, more: seq<byte>)
    requires Spaces(gap) && At(s, pos, gap + ([b] + more)) && b in {0x5D, 0x7D, 0x2C, 0x3A}
    ensures Ended(s, pos) && SkipSpace(s, pos) == pos + |gap| < |s| && s[pos + |gap|] == b
    ensures At(s, pos + |gap| + 1, more) && At(s, pos, gap)
  {
    hide At;
    AtSplit(s, pos, gap, [b] + more);
    AtSplit(s, pos + |gap|, [b], more);
    AtOne(s, pos + |gap|, b);
    SkipsTo(s, pos, gap);
    Whole(s, pos, gap);
    if gap != [] { assert s[pos + 0] == gap[0]; }
  }

  lemma {:induction false} Literals(good: seq<byte> -> bool, s: seq<byte>, pos: nat, t: Tree)
    requires t.NullTree? || t.TrueTree? || t.FalseTree?
    requires At(s, pos, TreeText(good, t))
    ensures pos < |s| && ParseValue(good, s, pos) == Json.Ok((TreeValue(good, t), pos + |TreeText(good, t)|))
  {
    Whole(s, pos, TreeText(good, t));
    assert s[pos + 0] == TreeText(good, t)[0];
    if t.FalseTree? { assert !StartsWith(s, pos, TRUE); }
  }

  lemma {:induction false} ArrayStep(good: seq<byte> -> bool, s: seq<byte>, pos: nat)
    requires pos < |s| && (s[pos] == 0x5B || s[pos] == 0x7B)
    ensures s[pos] == 0x5B ==>
              var p := SkipSpace(s, pos + 1);
              ParseValue(good, s, pos) ==
                if p < |s| && s[p] == 0x5D then Json.Ok((Arr([]), p + 1)) else ParseItems(good, s, pos + 1, [])
    ensures s[pos] == 0x7B ==>
              var p := SkipSpace(s, pos + 1);
              ParseValue(good, s, pos) ==
                if p < |s| && s[p] == 0x7D then Json.Ok((Obj([]), p + 1)) else ParseFields(good, s, pos + 1, [])
  {
    hide SkipSpace, ParseItems, ParseFields;
  }

  lemma {:induction false} ScalarStep(good: seq<byte> -> bool, s: seq<byte>, pos: nat)
    requires pos < |s|
    ensures s[pos] == QUOTE ==>
              var t := ParseString(s, pos);
              ParseValue(good, s, pos) == if t.Err? then Json.Err(t.error) else Json.Ok((Str(t.value.0), t.value.1))
    ensures s[pos] == 0x2D || IsDigit(s[pos]) ==> ParseValue(good, s, pos) == ParseNumber(good, s, pos)
  {
    hide ParseString, ParseNumber;
  }

  lemma {:induction false} TreeIs(good: seq<byte> -> bool, t: Tree)
    requires TreeOk(good, t)
    ensures match t
            case NumTree(text) => NumberText(good, text) && TreeText(good, t) == text && TreeValue(good, t) == Num(text)
            case StrTree(ps) =>
              && StringOk(ps) && PiecesOk(ps) && TreeText(good, t) == StringText(ps)
              && TreeValue(good, t) == Str(Lossy(BodyBytes(ps)))
            case NoItems(gap) =>
              Spaces(gap) && TreeText(good, t) == [0x5B] + (gap + ([0x5D] + [])) && TreeValue(good, t) == Arr([])
            case ArrTree(it) =>
              && ItemsOk(good, it) && TreeText(good, t) == [0x5B] + ItemsText(good, it)
              && TreeValue(good, t) == Arr(ItemValues(good, it))
            case NoFields(gap) =>
              Spaces(gap) && TreeText(good, t) == [0x7B] + (gap + ([0x7D] + [])) && TreeValue(good, t) == Obj([])
            case ObjTree(fs) =>
              && FieldsOk(good, fs) && TreeText(good, t) == [0x7B] + FieldsText(good, fs)
              && TreeValue(good, t) == Obj(FieldValues(good, fs))
            case _ => true
  {
    hide ItemsOk, FieldsOk, ItemsText, FieldsText, ItemValues, FieldValues, StringText, BodyBytes, Lossy, NumberText;
    assert [0x5D] + [] == [0x5D] && [0x7D] + [] == [0x7D];
  }

  lemma {:induction false} ItemsAre(good: seq<byte> -> bool, it: Items)
    requires ItemsOk(good, it)
    ensures Spaces(it.before) && TreeOk(good, it.t) && Spaces(it.after) && (it.MoreItems? ==> ItemsOk(good, it.rest))
    ensures ItemsText(good, it) == it.before + (TreeText(good, it.t) + (it.after
              + (if it.LastItem? then [0x5D] + [] else [0x2C] + ItemsText(good, it.rest))))
    ensures ItemValues(good, it) == [TreeValue(good, it.t)] + if it.LastItem? then [] else ItemValues(good, it.rest)
  {
    hide TreeOk, TreeText, TreeValue;
    assert [0x5D] + [] == [0x5D];
  }

  lemma {:induction false} EntryIs(good: seq<byte> -> bool, e: Entry)
    requires EntryOk(good, e)
    ensures Spaces(e.before) && StringOk(e.key) && PiecesOk(e.key) && Spaces(e.mid) && Spaces(e.gap)
    ensures TreeOk(good, e.t) && Spaces(e.after)
    ensures EntryText(good, e)
            == e.before + (StringText(e.key) + (e.mid + ([0x3A] + (e.gap + TreeText(good, e.t)))))
    ensures EntryValue(good, e) == (Lossy(BodyBytes(e.key)), TreeValue(good, e.t))
  {
    hide TreeOk, TreeText, TreeValue, StringText, PiecesOk, BodyBytes, Lossy;
  }

  lemma {:induction false} FieldsAre(good: seq<byte> -> bool, fs: Fields)
    requires FieldsOk(good, fs)
    ensures EntryOk(good, fs.e) && Spaces(fs.e.after) && (fs.MoreFields? ==> FieldsOk(good, fs.rest))
    ensures FieldsText(good, fs) == EntryText(good, fs.e) + (fs.e.after
              + (if fs.LastField? then [0x7D] + [] else [0x2C] + FieldsText(good, fs.rest)))
    ensures FieldValues(good, fs) == [EntryValue(good, fs.e)] + if fs.LastField? then [] else FieldValues(good, fs.rest)
  {
    assert [0x7D] + [] == [0x7D];
    hide EntryText, EntryValue;
  }

  lemma {:induction false} ItemStep(good: seq<byte> -> bool, s: seq<byte>, pos: nat, items: seq<Value>)
    requires pos <= |s|
    ensures var v := ParseValue(good, s, SkipSpace(s, pos));
      if v.Err? then ParseItems(good, s, pos, items).Err?
      else
        var p := SkipSpace(s, v.value.1);
        if p < |s| && s[p] == 0x2C then
          ParseItems(good, s, pos, items) == ParseItems(good, s, p + 1, items + [v.value.0])
        else if p < |s| && s[p] == 0x5D then
          ParseItems(good, s, pos, items) == Json.Ok((Arr(items + [v.value.0]), p + 1))
        else ParseItems(good, s, pos, items).Err?
  {
    hide ParseValue, SkipSpace;
  }

  lemma {:induction false} FieldStep(good: seq<byte> -> bool, s: seq<byte>, pos: nat, fields: seq<(string, Value)>)
    requires pos <= |s|
    ensures var m := ParseField(good, s, pos);
      if m.Err? then ParseFields(good, s, pos, fields).Err?
      else
        var p := SkipSpace(s, m.value.at);
        var grown := fields + [(m.value.key, m.value.value)];
        if p < |s| && s[p] == 0x2C then ParseFields(good, s, pos, fields) == ParseFields(good, s, p + 1, grown)
        else if p < |s| && s[p] == 0x7D then ParseFields(good, s, pos, fields) == Json.Ok((Obj(grown), p + 1))
        else ParseFields(good, s, pos, fields).Err?
  {
    hide ParseField, SkipSpace;
  }

  /** A text in the grammar is read as its value. */
  lemma {:induction false} ValueReads(good: seq<byte> -> bool, s: seq<byte>, pos: nat, t: Tree)
    requires TreeOk(good, t) && At(s, pos, TreeText(good, t))
    requires t.NumTree? ==> Ended(s, pos + |TreeText(good, t)|)
    ensures pos + |TreeText(good, t)| <= |s|
    ensures ParseValue(good, s, pos) == Json.Ok((TreeValue(good, t), pos + |TreeText(good, t)|))
    decreases t
  {
    hide *;
    FirstByte(good, s, pos, t);
    TreeIs(good, t);
    BeginsAs(s[pos], t);
    Whole(s, pos, TreeText(good, t));
    EndMeans(s, pos + |TreeText(good, t)|);
    match t
    case NumTree(text) =>
      ScalarStep(good, s, pos);
      NumberReads(good, s, pos, text);
    case StrTree(ps) =>
      ScalarStep(good, s, pos);
      StringReads(s, pos, ps);
    case NoItems(gap) =>
      AtSplit(s, pos, [0x5B], gap + ([0x5D] + []));
      GapEnds(s, pos + 1, gap, 0x5D, []);
      ArrayStep(good, s, pos);
    case NoFields(gap) =>
      AtSplit(s, pos, [0x7B], gap + ([0x7D] + []));
      GapEnds(s, pos + 1, gap, 0x7D, []);
      ArrayStep(good, s, pos);
    case ArrTree(it) =>
      AtSplit(s, pos, [0x5B], ItemsText(good, it));
      ArrayStep(good, s, pos);
      ItemsRead(good, s, pos + 1, it, []);
      assert [] + ItemValues(good, it) == ItemValues(good, it);
    case ObjTree(fs) =>
      AtSplit(s, pos, [0x7B], FieldsText(good, fs));
      ArrayStep(good, s, pos);
      FieldsRead(good, s, pos + 1, fs, []);
      assert [] + FieldValues(good, fs) == FieldValues(good, fs);
    case _ => Literals(good, s, pos, t);
  }

  lemma {:induction false} BeginsAs(b: byte, t: Tree)
    requires Begins(b, t)
    ensures t.NumTree? ==> b == 0x2D || IsDigit(b)
    ensures t.StrTree? ==> b == QUOTE
    ensures t.NoItems? || t.ArrTree? ==> b == 0x5B
    ensures t.NoFields? || t.ObjTree? ==> b == 0x7B
  {
  }

  lemma {:induction false} EndMeans(s: seq<byte>, pos: nat)
    ensures Ended(s, pos) <==> pos <= |s| && (pos < |s| ==> !InNumber(s[pos]))
  {
  }

  lemma {:induction false} ItemsRead(good: seq<byte> -> bool, s: seq<byte>, pos: nat, it: Items, done: seq<Value>)
    requires ItemsOk(good, it) && At(s, pos, ItemsText(good, it))
    ensures pos <= |s| && SkipSpace(s, pos) < |s| && s[SkipSpace(s, pos)] != 0x5D
    ensures ParseItems(good, s, pos, done) ==
            Json.Ok((Arr(done + ItemValues(good, it)), pos + |ItemsText(good, it)|))
    decreases it
  {
    hide *;
    ItemsAre(good, it);
    var b: byte := if it.LastItem? then 0x5D else 0x2C;
    var more := if it.LastItem? then [] else ItemsText(good, it.rest);
    var text, tail := TreeText(good, it.t), it.after + ([b] + more);
    var at := pos + |it.before|;
    AtSplit(s, pos, it.before, text + tail);
    AtSplit(s, at, text, tail);
    FirstByte(good, s, at, it.t);
    SkipsTo(s, pos, it.before);
    GapEnds(s, at + |text|, it.after, b, more);
    ValueReads(good, s, at, it.t);
    ItemStep(good, s, pos, done);
    var grown := done + [TreeValue(good, it.t)];
    if it.MoreItems? {
      ItemsRead(good, s, at + |text| + |it.after| + 1, it.rest, grown);
      assert grown + ItemValues(good, it.rest) == done + ItemValues(good, it);
    } else {
      assert [TreeValue(good, it.t)] + [] == [TreeValue(good, it.t)];
    }
  }

  lemma {:induction false} EntryReads(good: seq<byte> -> bool, s: seq<byte>, pos: nat, e: Entry)
    requires EntryOk(good, e) && At(s, pos, EntryText(good, e)) && Ended(s, pos + |EntryText(good, e)|)
    ensures pos <= |s| && SkipSpace(s, pos) < |s| && s[SkipSpace(s, pos)] == QUOTE
    ensures var (k, v) := EntryValue(good, e);
            ParseField(good, s, pos) == Json.Ok(Member(k, v, pos + |EntryText(good, e)|))
    decreases e
  {
    hide *;
    EntryIs(good, e);
    var key, text := StringText(e.key), TreeText(good, e.t);
    var k := pos + |e.before|;
    var c := k + |key|;
    AtSplit(s, pos, e.before, key + (e.mid + ([0x3A] + (e.gap + text))));
    AtSplit(s, k, key, e.mid + ([0x3A] + (e.gap + text)));
    StringReads(s, k, e.key);
    SpaceNot(s[k]);
    SkipsTo(s, pos, e.before);
    GapEnds(s, c, e.mid, 0x3A, e.gap + text);
    var g := c + |e.mid| + 1;
    AtSplit(s, g, e.gap, text);
    FirstByte(good, s, g + |e.gap|, e.t);
    SkipsTo(s, g, e.gap);
    assert g + |e.gap| + |text| == pos + |EntryText(good, e)|;
    ValueReads(good, s, g + |e.gap|, e.t);
    FieldIs(good, s, pos);
  }

  lemma {:induction false} SpaceNot(b: byte)
    requires b == QUOTE
    ensures !IsSpace(b)
  {
  }

  lemma {:induction false} FieldIs(good: seq<byte> -> bool, s: seq<byte>, pos: nat)
    requires pos <= |s|
    ensures var k := SkipSpace(s, pos);
      if k == |s| || s[k] != QUOTE || ParseString(s, k).Err? then ParseField(good, s, pos).Err?
      else
        var key := ParseString(s, k).value;
        var c := SkipSpace(s, key.1);
        if c == |s| || s[c] != 0x3A then ParseField(good, s, pos).Err?
        else
          var v := ParseValue(good, s, SkipSpace(s, c + 1));
          if v.Err? then ParseField(good, s, pos).Err?
          else ParseField(good, s, pos) == Json.Ok(Member(key.0, v.value.0, v.value.1))
  {
    hide ParseString, ParseValue, SkipSpace;
  }

  lemma {:induction false} FieldsRead(good: seq<byte> -> bool, s: seq<byte>, pos: nat, fs: Fields,
      done: seq<(string, Value)>)
    requires FieldsOk(good, fs) && At(s, pos, FieldsText(good, fs))
    ensures pos <= |s| && SkipSpace(s, pos) < |s| && s[SkipSpace(s, pos)] != 0x7D
    ensures ParseFields(good, s, pos, done) ==
            Json.Ok((Obj(done + FieldValues(good, fs)), pos + |FieldsText(good, fs)|))
    decreases fs
  {
    hide *;
    FieldsAre(good, fs);
    QuoteIs();
    var e, text := fs.e, EntryText(good, fs.e);
    var b: byte := if fs.LastField? then 0x7D else 0x2C;
    var more := if fs.LastField? then [] else FieldsText(good, fs.rest);
    AtSplit(s, pos, text, e.after + ([b] + more));
    GapEnds(s, pos + |text|, e.after, b, more);
    EntryReads(good, s, pos, e);
    FieldStep(good, s, pos, done);
    var grown := done + [EntryValue(good, e)];
    if fs.MoreFields? {
      FieldsRead(good, s, pos + |text| + |e.after| + 1, fs.rest, grown);
      assert grown + FieldValues(good, fs.rest) == done + FieldValues(good, fs);
    } else {
      assert [EntryValue(good, e)] + [] == [EntryValue(good, e)];
    }
  }

  // ---- values read back -----------------------------------------------------

  lemma {:induction false} LiteralBack(good: seq<byte> -> bool, s: seq<byte>, pos: nat) returns (t: Tree)
    requires pos < |s| && s[pos] in {0x74, 0x66, 0x6E} && ParseValue(good, s, pos).Ok?
    ensures TreeOk(good, t) && At(s, pos, TreeText(good, t)) && (t.NullTree? || t.TrueTree? || t.FalseTree?)
  {
    t := if s[pos] == 0x6E then NullTree else if StartsWith(s, pos, TRUE) then TrueTree else FalseTree;
  }

  lemma {:induction false} KindBack(good: seq<byte> -> bool, s: seq<byte>, pos: nat)
    requires pos <= |s| && ParseValue(good, s, pos).Ok?
    ensures pos < |s|
    ensures s[pos] in {0x7B, 0x5B, QUOTE, 0x74, 0x66, 0x6E, 0x2D} || IsDigit(s[pos])
    ensures !IsDigit(0x7B) && !IsDigit(0x5B) && !IsDigit(QUOTE) && !IsDigit(0x74) && !IsDigit(0x66) && !IsDigit(0x6E)
  {
    hide ParseItems, ParseFields, ParseString, ParseNumber, SkipSpace, StartsWith;
  }

  /** Every text that is read is in the grammar. */
  lemma {:induction false} ValueBack(good: seq<byte> -> bool, s: seq<byte>, pos: nat) returns (t: Tree)
    requires pos <= |s| && ParseValue(good, s, pos).Ok?
    ensures TreeOk(good, t) && At(s, pos, TreeText(good, t))
    ensures t.NumTree? ==> Ended(s, pos + |TreeText(good, t)|)
    decreases |s| - pos, 1
  {
    hide *;
    KindBack(good, s, pos);
    ScalarStep(good, s, pos);
    if s[pos] == 0x5B {
      ArrayStep(good, s, pos);
      AtOne(s, pos, 0x5B);
      var p := SkipSpace(s, pos + 1);
      SkipBack(s, pos + 1);
      var gap := s[pos + 1..p];
      if p < |s| && s[p] == 0x5D {
        t := NoItems(gap);
        AtNothing(s, p + 1);
        GapBack(s, pos + 1, gap, 0x5D, []);
        BuiltEmpty(good, gap);
        TreeIs(good, t);
        AtSplit(s, pos, [0x5B], gap + ([0x5D] + []));
      } else {
        var it := ItemsBack(good, s, pos + 1, []);
        t := ArrTree(it);
        Built(good, t);
        TreeIs(good, t);
        AtSplit(s, pos, [0x5B], ItemsText(good, it));
      }
    } else if s[pos] == 0x7B {
      ArrayStep(good, s, pos);
      AtOne(s, pos, 0x7B);
      var p := SkipSpace(s, pos + 1);
      SkipBack(s, pos + 1);
      var gap := s[pos + 1..p];
      if p < |s| && s[p] == 0x7D {
        t := NoFields(gap);
        AtNothing(s, p + 1);
        GapBack(s, pos + 1, gap, 0x7D, []);
        BuiltEmpty(good, gap);
        TreeIs(good, t);
        AtSplit(s, pos, [0x7B], gap + ([0x7D] + []));
      } else {
        var fs := FieldsBack(good, s, pos + 1, []);
        t := ObjTree(fs);
        Built(good, t);
        TreeIs(good, t);
        AtSplit(s, pos, [0x7B], FieldsText(good, fs));
      }
    } else if s[pos] == QUOTE {
      var ps := StringBack(s, pos);
      t := StrTree(ps);
      Built(good, t);
      TreeIs(good, t);
    } else if s[pos] in {0x74, 0x66, 0x6E} {
      t := LiteralBack(good, s, pos);
    } else {
      NumberBack(good, s, pos);
      var end := ParseNumber(good, s, pos).value.1;
      t := NumTree(s[pos..end]);
      Built(good, t);
      TreeIs(good, t);
      Standing(s, pos, s[pos..end]);
      NumberOver(good, s, pos);
    }
  }

  lemma {:induction false} NumberOver(good: seq<byte> -> bool, s: seq<byte>, pos: nat)
    requires pos < |s| && ParseNumber(good, s, pos).Ok?
    ensures Ended(s, ParseNumber(good, s, pos).value.1)
  {
  }

  lemma {:induction false} BuiltEmpty(good: seq<byte> -> bool, gap: seq<byte>)
    requires Spaces(gap)
    ensures TreeOk(good, NoItems(gap)) && TreeOk(good, NoFields(gap))
  {
  }

  lemma {:induction false} Built(good: seq<byte> -> bool, t: Tree)
    ensures t.NumTree? && NumberText(good, t.text) ==> TreeOk(good, t)
    ensures t.StrTree? && StringOk(t.ps) ==> TreeOk(good, t)
    ensures t.ArrTree? && ItemsOk(good, t.items) ==> TreeOk(good, t)
    ensures t.ObjTree? && FieldsOk(good, t.fields) ==> TreeOk(good, t)
  {
  }

  lemma {:induction false} GapBack(s: seq<byte>, pos: nat, gap: seq<byte>, b: byte, more: seq<byte>)
    requires At(s, pos, gap) && pos + |gap| < |s| && s[pos + |gap|] == b && At(s, pos + |gap| + 1, more)
    ensures At(s, pos, gap + ([b] + more))
  {
    hide At;
    AtOne(s, pos + |gap|, b);
    AtSplit(s, pos + |gap|, [b], more);
    AtSplit(s, pos, gap, [b] + more);
  }

  /** Where the value after the space ends, and its text. */
  lemma {:induction false} SpacedBack(good: seq<byte> -> bool, s: seq<byte>, pos: nat) returns (gap: seq<byte>, t: Tree)
    requires pos <= |s| && ParseValue(good, s, SkipSpace(s, pos)).Ok?
    ensures Spaces(gap) && TreeOk(good, t) && At(s, pos, gap + TreeText(good, t))
    ensures var end := pos + |gap| + |TreeText(good, t)|;
            end <= |s| && ParseValue(good, s, SkipSpace(s, pos)) == Json.Ok((TreeValue(good, t), end))
    decreases |s| - pos, 2
  {
    hide *;
    var p := SkipSpace(s, pos);
    SkipBack(s, pos);
    gap := s[pos..p];
    t := ValueBack(good, s, p);
    AtSplit(s, pos, gap, TreeText(good, t));
    ValueReads(good, s, p, t);
  }

  lemma {:induction false} ItemsBack(good: seq<byte> -> bool, s: seq<byte>, pos: nat, done: seq<Value>)
      returns (it: Items)
    requires pos <= |s| && ParseItems(good, s, pos, done).Ok?
    ensures ItemsOk(good, it) && At(s, pos, ItemsText(good, it))
    decreases |s| - pos, 3
  {
    hide *;
    ItemStep(good, s, pos, done);
    var gap, t := SpacedBack(good, s, pos);
    var text := TreeText(good, t);
    var end := pos + |gap| + |text|;
    var p := SkipSpace(s, end);
    SkipBack(s, end);
    var after := s[end..p];
    if s[p] == 0x5D {
      it := LastItem(gap, t, after);
      BuiltItems(good, it);
      ItemsAre(good, it);
      AtNothing(s, p + 1);
      GapBack(s, end, after, 0x5D, []);
      AtSplit(s, pos, gap, text);
      AtSplit(s, pos + |gap|, text, after + ([0x5D] + []));
      AtSplit(s, pos, gap, text + (after + ([0x5D] + [])));
    } else {
      var rest := ItemsBack(good, s, p + 1, done + [TreeValue(good, t)]);
      it := MoreItems(gap, t, after, rest);
      BuiltItems(good, it);
      ItemsAre(good, it);
      var more := ItemsText(good, rest);
      GapBack(s, end, after, 0x2C, more);
      AtSplit(s, pos, gap, text);
      AtSplit(s, pos + |gap|, text, after + ([0x2C] + more));
      AtSplit(s, pos, gap, text + (after + ([0x2C] + more)));
    }
  }

  lemma {:induction false} BuiltItems(good: seq<byte> -> bool, it: Items)
    requires Spaces(it.before) && TreeOk(good, it.t) && Spaces(it.after) && (it.MoreItems? ==> ItemsOk(good, it.rest))
    ensures ItemsOk(good, it)
  {
  }

  lemma {:induction false} EntryBack(good: seq<byte> -> bool, s: seq<byte>, pos: nat) returns (e: Entry)
    requires pos <= |s| && ParseField(good, s, pos).Ok?
    ensures EntryOk(good, e) && e.after == [] && At(s, pos, EntryText(good, e))
    ensures var (k, v) := EntryValue(good, e);
            pos + |EntryText(good, e)| <= |s| && |EntryText(good, e)| > 0
            && ParseField(good, s, pos) == Json.Ok(Member(k, v, pos + |EntryText(good, e)|))
    decreases |s| - pos, 3
  {
    hide *;
    FieldIs(good, s, pos);
    var k := SkipSpace(s, pos);
    SkipBack(s, pos);
    var before := s[pos..k];
    var key := StringBack(s, k);
    StringReads(s, k, key);
    KeyFits(key);
    var ktext := StringText(key);
    Whole(s, k, ktext);
    var end := k + |ktext|;
    var c := SkipSpace(s, end);
    SkipBack(s, end);
    var mid := s[end..c];
    var gap, t := SpacedBack(good, s, c + 1);
    var vtext := TreeText(good, t);
    e := Entry(before, key, mid, gap, t, []);
    BuiltEntry(good, e);
    EntryIs(good, e);
    GapBack(s, end, mid, 0x3A, gap + vtext);
    AtSplit(s, k, ktext, mid + ([0x3A] + (gap + vtext)));
    AtSplit(s, pos, before, ktext + (mid + ([0x3A] + (gap + vtext))));
    Whole(s, pos, EntryText(good, e));
  }

  lemma {:induction false} KeyFits(key: seq<Piece>)
    requires StringOk(key)
    ensures PiecesOk(key) && |StringText(key)| >= 2
  {
  }

  lemma {:induction false} BuiltEntry(good: seq<byte> -> bool, e: Entry)
    requires Spaces(e.before) && StringOk(e.key) && Spaces(e.mid) && Spaces(e.gap) && TreeOk(good, e.t)
    ensures Spaces(e.after) ==> EntryOk(good, e)
    ensures e.after == [] ==> EntryOk(good, e)
  {
  }

  lemma {:induction false} FieldsBack(good: seq<byte> -> bool, s: seq<byte>, pos: nat,
      done: seq<(string, Value)>) returns (fs: Fields)
    requires pos <= |s| && ParseFields(good, s, pos, done).Ok?
    ensures FieldsOk(good, fs) && At(s, pos, FieldsText(good, fs))
    decreases |s| - pos, 4
  {
    hide *;
    FieldStep(good, s, pos, done);
    var e0 := EntryBack(good, s, pos);
    var text := EntryText(good, e0);
    var end := pos + |text|;
    var p := SkipSpace(s, end);
    SkipBack(s, end);
    var e := e0.(after := s[end..p]);
    Reentered(good, e0, e.after);
    if s[p] == 0x7D {
      fs := LastField(e);
      BuiltFields(good, fs);
      FieldsAre(good, fs);
      AtNothing(s, p + 1);
      GapBack(s, end, e.after, 0x7D, []);
      AtSplit(s, pos, text, e.after + ([0x7D] + []));
    } else {
      var rest := FieldsBack(good, s, p + 1, done + [EntryValue(good, e0)]);
      fs := MoreFields(e, rest);
      BuiltFields(good, fs);
      FieldsAre(good, fs);
      var more := FieldsText(good, rest);
      GapBack(s, end, e.after, 0x2C, more);
      AtSplit(s, pos, text, e.after + ([0x2C] + more));
    }
  }

  lemma {:induction false} Reentered(good: seq<byte> -> bool, e: Entry, after: seq<byte>)
    requires EntryOk(good, e) && Spaces(after)
    ensures EntryOk(good, e.(after := after)) && EntryText(good, e.(after := after)) == EntryText(good, e)
  {
    hide TreeText, StringText, TreeOk;
  }

  lemma {:induction false} BuiltFields(good: seq<byte> -> bool, fs: Fields)
    requires EntryOk(good, fs.e) && (fs.MoreFields? ==> FieldsOk(good, fs.rest))
    ensures FieldsOk(good, fs)
  {
  }

  /** A text with nothing but space around it. */
  ghost predicate TextOf(good: seq<byte> -> bool, s: seq<byte>, t: Tree, a: seq<byte>, b: seq<byte>)
    requires TreeOk(good, t)
  {
    Spaces(a) && Spaces(b) && s == a + TreeText(good, t) + b
  }

  /** The whole reader: a text is read as `v` if and only if it is, up to the space around it, the text of a
      tree whose value is `v`. */
  lemma {:induction false} ParsesExactly(good: seq<byte> -> bool, s: seq<byte>, v: Value)
    ensures Parse(good, s) == Json.Ok(v) <==>
            exists t, a, b :: TreeOk(good, t) && TextOf(good, s, t, a, b) && TreeValue(good, t) == v
  {
    hide *;
    ParseIs(good, s);
    if Parse(good, s) == Json.Ok(v) {
      var a, t := SpacedBack(good, s, 0);
      var text := TreeText(good, t);
      var end := |a| + |text|;
      SkipBack(s, end);
      Whole(s, 0, a + text);
      assert |a + text| == end && s[end..] == s[end..|s|];
      Around(good, s, t, a, s[end..]);
    }
    if t, a, b :| TreeOk(good, t) && TextOf(good, s, t, a, b) && TreeValue(good, t) == v {
      var text := TreeText(good, t);
      Surrounds(good, s, t, a, b);
      AtSplit(s, 0, a, text);
      FirstByte(good, s, |a|, t);
      SkipsTo(s, 0, a);
      ValueReads(good, s, |a|, t);
      SkipsTo(s, |a| + |text|, b);
    }
  }

  lemma {:induction false} ParseIs(good: seq<byte> -> bool, s: seq<byte>)
    ensures var v := ParseValue(good, s, SkipSpace(s, 0));
            if v.Ok? && SkipSpace(s, v.value.1) == |s| then Parse(good, s) == Json.Ok(v.value.0)
              else Parse(good, s).Err?
  {
    hide ParseValue, SkipSpace;
  }

  lemma {:induction false} Around(good: seq<byte> -> bool, s: seq<byte>, t: Tree, a: seq<byte>, b: seq<byte>)
    requires TreeOk(good, t) && Spaces(a) && Spaces(b) && |a| + |TreeText(good, t)| <= |s|
    requires s[0..0 + |a + TreeText(good, t)|] == a + TreeText(good, t) && b == s[|a| + |TreeText(good, t)|..]
    ensures TextOf(good, s, t, a, b)
  {
    hide TreeText, Spaces;
  }

  lemma {:induction false} Surrounds(good: seq<byte> -> bool, s: seq<byte>, t: Tree, a: seq<byte>, b: seq<byte>)
    requires TreeOk(good, t) && TextOf(good, s, t, a, b)
    ensures Spaces(a) && Spaces(b) && At(s, 0, a + TreeText(good, t)) && At(s, |a| + |TreeText(good, t)|, b)
    ensures Ended(s, |a| + |TreeText(good, t)|) && |s| == |a| + |TreeText(good, t)| + |b|
  {
    hide TreeText;
    if b != [] { assert s[|a| + |TreeText(good, t)|] == b[0]; }
  }
}
