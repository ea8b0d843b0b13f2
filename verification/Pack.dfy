/**
  The pack codec (Lua/modules/lpack.c): a list of values written as a string of hex digits, with a header of
  type nibbles, and read back.
*/
module PackCodec {
  import opened Options

  type Byte = x: int | 0 <= x < 256

  /** sizeof(lua_Integer) and sizeof(lua_Number), whatever they are */
  const INTEGER_SIZE: nat
  const NUMBER_SIZE: nat

  /** Lua values by their bytes in memory.  `Other` stands for tables, functions and the like. */
  datatype Value = Number(bytes: seq<Byte>) | Integer(bytes: seq<Byte>) | Nil | Boolean(b: bool)
                 | Str(bytes: seq<Byte>) | Other

  predicate Sized(v: Value) {
    match v
    case Number(b) => |b| == NUMBER_SIZE
    case Integer(b) => |b| == INTEGER_SIZE
    case _ => true
  }

  // ---------- hex digits ----------

  /** The character codes of '0' and 'A' */
  const ZERO: Byte := 48
  const LETTER_A: Byte := 65

  /** A string of characters, given by their codes */
  type Text = seq<Byte>

  function Digit(n: int): Byte
    requires 0 <= n < 16
  {
    if n <= 9 then ZERO + n else LETTER_A + (n - 10)
  }

  /** The value of a hex digit; any other character counts as 0. */
  function Nibble(c: Byte): (n: int)
    ensures 0 <= n < 16
  {
    if ZERO <= c <= ZERO + 9 then c - ZERO
    else if LETTER_A <= c <= LETTER_A + 5 then 10 + (c - LETTER_A)
    else 0
  }

  lemma NibbleOfDigit(n: int)
    requires 0 <= n < 16
    ensures Nibble(Digit(n)) == n
    ensures Digit(n) == ZERO <==> n == 0
  {
  }

  /** val_to_hex_string */
  function Hex(bytes: seq<Byte>): (s: Text)
    ensures |s| == 2 * |bytes|
  {
    if bytes == [] then []
    else Hex(bytes[..|bytes| - 1]) + [Digit(bytes[|bytes| - 1] / 16), Digit(bytes[|bytes| - 1] % 16)]
  }

  lemma {:induction false} HexAt(bytes: seq<Byte>, k: nat)
    requires k < |bytes|
    ensures Hex(bytes)[2 * k] == Digit(bytes[k] / 16) && Hex(bytes)[2 * k + 1] == Digit(bytes[k] % 16)
    ensures Nibble(Hex(bytes)[2 * k]) == bytes[k] / 16 && Nibble(Hex(bytes)[2 * k + 1]) == bytes[k] % 16
  {
    NibbleOfDigit(bytes[k] / 16);
    NibbleOfDigit(bytes[k] % 16);
    if k < |bytes| - 1 {
      HexAt(bytes[..|bytes| - 1], k);
    }
  }

  /** hex_string_to_val */
  function Unhex(s: Text, at: nat, len: nat): (bytes: seq<Byte>)
    requires at + 2 * len <= |s|
    ensures |bytes| == len
  {
    if len == 0 then []
    else Unhex(s, at, len - 1) + [Nibble(s[at + 2 * (len - 1)]) * 16 + Nibble(s[at + 2 * (len - 1) + 1])]
  }

  lemma {:induction false} UnhexAt(s: Text, at: nat, len: nat, k: nat)
    requires at + 2 * len <= |s| && k < len
    ensures Unhex(s, at, len)[k] == Nibble(s[at + 2 * k]) * 16 + Nibble(s[at + 2 * k + 1])
  {
    if k < len - 1 {
      UnhexAt(s, at, len - 1, k);
    }
  }

  /** Does the string `s` hold `t` at place `at`? */
  predicate HoldsAt(s: Text, at: nat, t: Text) {
    at + |t| <= |s| && forall k | 0 <= k < |t| :: s[at + k] == t[k]
  }

  lemma HeldChar(s: Text, at: nat, t: Text, k: nat)
    requires HoldsAt(s, at, t) && k < |t|
    ensures s[at + k] == t[k]
  {
  }

  /** Reading back what was written as hex digits, or the start of it. */
  lemma UnhexHex(s: Text, at: nat, t: Text, bytes: seq<Byte>, n: nat)
    requires HoldsAt(s, at, t) && t == Hex(bytes) && n <= |bytes|
    ensures Unhex(s, at, n) == bytes[..n]
    ensures n == |bytes| ==> Unhex(s, at, n) == bytes
  {
    var r := Unhex(s, at, n);
    forall k | 0 <= k < n
      ensures r[k] == bytes[k]
    {
      UnhexAt(s, at, n, k);
      HexAt(bytes, k);
      HeldChar(s, at, t, 2 * k);
      HeldChar(s, at, t, 2 * k + 1);
    }
  }

  /** hex_string_len: the number of pairs of digits before one that contains '0', if the string holds one. */
  function HexLen(s: Text, at: nat): Option<nat>
    decreases |s| - at
  {
    if at + 2 > |s| then None
    else if s[at] == ZERO || s[at + 1] == ZERO then Some(0)
    else match HexLen(s, at + 2)
      case None => None
      case Some(n) => Some(n + 1)
  }

  /** Both nibbles of a byte are non-zero. */
  predicate Plain(b: Byte) {
    b / 16 != 0 && b % 16 != 0
  }

  /** The number of plain bytes at the start */
  function PlainPrefix(bytes: seq<Byte>): (n: nat)
    ensures n <= |bytes| && (forall k | 0 <= k < n :: Plain(bytes[k])) && (n < |bytes| ==> !Plain(bytes[n]))
  {
    if bytes == [] || !Plain(bytes[0]) then 0 else 1 + PlainPrefix(bytes[1..])
  }

  /** What strlen sees of a string */
  function CString(bytes: seq<Byte>): (r: seq<Byte>)
    ensures r <= bytes && 0 !in r && (|r| < |bytes| ==> bytes[|r|] == 0)
  {
    if bytes == [] || bytes[0] == 0 then [] else [bytes[0]] + CString(bytes[1..])
  }

  // ---------- the format ----------

  function TypeOf(v: Value): (t: int)
    ensures 0 <= t < 16
  {
    match v
    case Number(_) => 0
    case Integer(_) => 1
    case Nil => 2
    case Boolean(_) => 3
    case Str(_) => 4
    case Other => 0
  }

  /** PACK_HEADER_LENGTH */
  function HeaderLength(n: nat): nat {
    1 + (n + 1) / 2
  }

  /** The header byte with the types of values 2k and 2k + 1 */
  function TypeByte(vs: seq<Value>, k: nat): Byte
    requires 2 * k < |vs|
  {
    TypeOf(vs[2 * k]) * 16 + if 2 * k + 1 < |vs| then TypeOf(vs[2 * k + 1]) else 0
  }

  /** The count as a char */
  function CountByte(n: nat): Byte {
    n % 256
  }

  function Header(vs: seq<Value>): (h: seq<Byte>)
    ensures |h| == HeaderLength(|vs|)
  {
    [CountByte(|vs|)] + seq((|vs| + 1) / 2, k requires 0 <= k < (|vs| + 1) / 2 => TypeByte(vs, k))
  }

  function Body(v: Value): Text {
    match v
    case Number(b) => Hex(b)
    case Integer(b) => Hex(b)
    case Nil => []
    case Boolean(b) => Hex([if b then 1 else 0])
    case Str(b) => Hex(CString(b)) + [ZERO, ZERO]
    case Other => []
  }

  function Bodies(vs: seq<Value>): Text {
    if vs == [] then [] else Bodies(vs[..|vs| - 1]) + Body(vs[|vs| - 1])
  }

  datatype Packing = Packed(text: Text) | MissingArguments | UnsupportedType(argument: nat)

  function FirstOther(vs: seq<Value>): (i: nat)
    ensures i <= |vs| && (forall j | 0 <= j < i :: vs[j] != Other) && (i < |vs| ==> vs[i] == Other)
  {
    if vs == [] || vs[0] == Other then 0 else 1 + FirstOther(vs[1..])
  }

  /** l_pack */
  function Pack(vs: seq<Value>): Packing {
    if vs == [] then MissingArguments
    else if FirstOther(vs) < |vs| then UnsupportedType(FirstOther(vs) + 1)
    else Packed(Hex(Header(vs)) + Bodies(vs))
  }

  // ---------- reading ----------

  /** The type nibble of value `i`, read from the header */
  function TypeAt(s: Text, i: nat): int
    requires 2 * (1 + i / 2) + 2 <= |s|
  {
    Nibble(s[2 * (1 + i / 2) + i % 2])
  }

  datatype Read = Read(values: seq<Value>, at: nat) | Overrun

  /** One value of the switch in l_unpack; an unknown type pushes nothing. */
  function ReadOne(s: Text, ctype: int, at: nat): Read {
    if ctype == 0 then
      (if at + 2 * NUMBER_SIZE > |s| then Overrun else Read([Number(Unhex(s, at, NUMBER_SIZE))], at + 2 * NUMBER_SIZE))
    else if ctype == 1 then
      (if at + 2 * INTEGER_SIZE > |s| then Overrun else Read([Integer(Unhex(s, at, INTEGER_SIZE))], at + 2 * INTEGER_SIZE))
    else if ctype == 2 then Read([Nil], at)
    else if ctype == 3 then
      (if at + 2 > |s| then Overrun else Read([Boolean(Unhex(s, at, 1)[0] != 0)], at + 2))
    else if ctype == 4 then
      match HexLen(s, at)
      case None => Overrun
      case Some(n) => if at + 2 * n + 2 > |s| then Overrun else Read([Str(CString(Unhex(s, at, n)))], at + 2 * n + 2)
    else Read([], at)
  }

  /** Values `i` to `total` - 1, of which the first stands at `at` */
  function ReadFrom(s: Text, i: nat, total: nat, at: nat): Option<seq<Value>>
    decreases total - i
  {
    if i >= total then Some([])
    else if 2 * (1 + i / 2) + 2 > |s| then None
    else match ReadOne(s, TypeAt(s, i), at)
      case Overrun => None
      case Read(vs, at') =>
        match ReadFrom(s, i + 1, total, at')
        case None => None
        case Some(rest) => Some(vs + rest)
  }

  /** l_unpack; nothing if it would read behind the end of the string */
  function Unpack(s: Text): Option<seq<Value>> {
    if |s| < 2 then None
    else
      var total := Unhex(s, 0, 1)[0];
      ReadFrom(s, 0, total, 2 * HeaderLength(total))
  }

  // ---------- the round trip ----------

  /** A value that the format can carry: Texts only with bytes whose nibbles are both non-zero. */
  predicate Clean(v: Value) {
    v.Str? ==> forall k | 0 <= k < |v.bytes| :: Plain(v.bytes[k])
  }

  lemma TypeByteParts(vs: seq<Value>, k: nat)
    requires 2 * k < |vs|
    ensures TypeByte(vs, k) / 16 == TypeOf(vs[2 * k])
    ensures 2 * k + 1 < |vs| ==> TypeByte(vs, k) % 16 == TypeOf(vs[2 * k + 1])
  {
  }

  lemma HeaderAt(vs: seq<Value>, k: nat)
    requires 2 * k < |vs|
    ensures 1 + k < |Header(vs)| && Header(vs)[1 + k] == TypeByte(vs, k)
  {
  }

  lemma NibbleInHeader(s: Text, t: Text, h: seq<Byte>, k: nat)
    requires HoldsAt(s, 0, t) && t == Hex(h) && k < |h|
    ensures 2 * k + 2 <= |s| && Nibble(s[2 * k]) == h[k] / 16 && Nibble(s[2 * k + 1]) == h[k] % 16
  {
    HexAt(h, k);
    HeldChar(s, 0, t, 2 * k);
    HeldChar(s, 0, t, 2 * k + 1);
  }

  lemma TypeAtHeader(s: Text, t: Text, vs: seq<Value>, i: nat)
    requires HoldsAt(s, 0, t) && t == Hex(Header(vs)) && i < |vs|
    ensures 2 * (1 + i / 2) + 2 <= |s| && TypeAt(s, i) == TypeOf(vs[i])
  {
    TypeByteParts(vs, i / 2);
    HeaderAt(vs, i / 2);
    NibbleInHeader(s, t, Header(vs), 1 + i / 2);
  }

  // ---------- the format ----------

  /** The characters 0 to 9 and A to F */
  const HEX_DIGITS: seq<Byte> := [48, 49, 50, 51, 52, 53, 54, 55, 56, 57, 65, 66, 67, 68, 69, 70]

  lemma DigitCode(n: int)
    requires 0 <= n < 16
    ensures Digit(n) == HEX_DIGITS[n] && Nibble(HEX_DIGITS[n]) == n
  {
  }

  /** Any character that is no upper-case hex digit reads as 0. */
  lemma OtherCode(c: Byte)
    ensures c in HEX_DIGITS || Nibble(c) == 0
  {
    if 48 <= c <= 57 {
      assert HEX_DIGITS[c - 48] == c;
    } else if 65 <= c <= 70 {
      assert HEX_DIGITS[c - 55] == c;
    }
  }

  /** Two digits a byte, the high half first */
  lemma HexFormat(bytes: seq<Byte>, k: nat)
    requires k < |bytes|
    ensures Hex(bytes)[2 * k] == HEX_DIGITS[bytes[k] / 16] && Hex(bytes)[2 * k + 1] == HEX_DIGITS[bytes[k] % 16]
  {
    HexAt(bytes, k);
    DigitCode(bytes[k] / 16);
    DigitCode(bytes[k] % 16);
  }

  /** The digit for the type of a value: number 0, integer 1, nil 2, boolean 3, string 4 */
  predicate HasType(v: Value, c: Byte) {
    || (v.Number? && c == 48) || (v.Integer? && c == 49) || (v.Nil? && c == 50) || (v.Boolean? && c == 51)
    || (v.Str? && c == 52)
  }

  lemma TypeDigit(v: Value)
    requires v != Other
    ensures HasType(v, Digit(TypeOf(v)))
  {
  }

  /** A packed string starts with two digits for the number of values, modulo 256, and one digit for the type of each
      value; behind them, and a zero that fills up an odd number, the values follow. */
  lemma PackedFormat(vs: seq<Value>)
    requires vs != [] && forall i | 0 <= i < |vs| :: vs[i] != Other
    ensures Pack(vs).Packed?
    ensures var s, n := Pack(vs).text, |vs| + |vs| % 2;
            && 2 + n <= |s| && s[2 + n..] == Bodies(vs)
            && s[0] == HEX_DIGITS[|vs| % 256 / 16] && s[1] == HEX_DIGITS[|vs| % 16]
            && (forall i | 0 <= i < |vs| :: HasType(vs[i], s[2 + i]))
            && (n > |vs| ==> s[2 + |vs|] == 48)
  {
    NoOther(vs);
    var h := Header(vs);
    CountDigits(vs, h);
    HeaderDigits(vs, h);
    HeaderThenBodies(Hex(h), Bodies(vs), Pack(vs).text);
  }

  lemma CountDigits(vs: seq<Value>, h: seq<Byte>)
    requires h == Header(vs)
    ensures 2 <= |Hex(h)| && Hex(h)[0] == HEX_DIGITS[|vs| % 256 / 16] && Hex(h)[1] == HEX_DIGITS[|vs| % 16]
  {
    HexFormat(h, 0);
    LowDigit(|vs|);
    assert h[0] == CountByte(|vs|);
  }

  lemma LowDigit(n: nat)
    ensures n % 256 % 16 == n % 16
  {
  }

  lemma HeaderDigits(vs: seq<Value>, h: seq<Byte>)
    requires h == Header(vs) && forall i | 0 <= i < |vs| :: vs[i] != Other
    ensures |Hex(h)| == 2 + |vs| + |vs| % 2
    ensures forall i | 0 <= i < |vs| :: HasType(vs[i], Hex(h)[2 + i])
    ensures |vs| % 2 == 1 ==> Hex(h)[2 + |vs|] == 48
  {
    forall i | 0 <= i < |vs|
      ensures HasType(vs[i], Hex(h)[2 + i])
    {
      HeaderDigit(vs, i, h);
    }
    if |vs| % 2 == 1 {
      FillDigit(vs, h);
    }
  }

  lemma HeaderThenBodies(t: Text, bodies: Text, s: Text)
    requires s == t + bodies && |t| >= 2
    ensures s[|t|..] == bodies && forall k | 0 <= k < |t| :: s[k] == t[k]
  {
  }

  lemma HeaderDigit(vs: seq<Value>, i: nat, h: seq<Byte>)
    requires i < |vs| && vs[i] != Other && h == Header(vs)
    ensures 2 + i < |Hex(h)| && HasType(vs[i], Hex(h)[2 + i])
  {
    HeaderAt(vs, i / 2);
    HexAt(h, 1 + i / 2);
    TypeByteParts(vs, i / 2);
    TypeDigit(vs[i]);
    assert 2 + i == 2 * (1 + i / 2) + i % 2;
  }

  lemma FillDigit(vs: seq<Value>, h: seq<Byte>)
    requires |vs| % 2 == 1 && h == Header(vs)
    ensures 2 + |vs| < |Hex(h)| && Hex(h)[2 + |vs|] == 48
  {
    var k := |vs| / 2;
    HeaderAt(vs, k);
    HexAt(h, 1 + k);
    assert TypeByte(vs, k) % 16 == 0;
    assert 2 + |vs| == 2 * (1 + k) + 1;
  }

  /** Numbers, integers and booleans are their bytes, nil is nothing, and a string without a zero byte is its bytes
      with the digits 00 behind them. */
  lemma BodyFormat(v: Value)
    ensures v.Nil? ==> Body(v) == []
    ensures v.Boolean? ==> Body(v) == [48, if v.b then 49 else 48]
    ensures v.Number? || v.Integer? ==>
              |Body(v)| == 2 * |v.bytes| && forall k: nat | k < |v.bytes| ::
                Body(v)[2 * k] == HEX_DIGITS[v.bytes[k] / 16] && Body(v)[2 * k + 1] == HEX_DIGITS[v.bytes[k] % 16]
    ensures v.Str? && 0 !in v.bytes ==> Body(v) == Hex(v.bytes) + [48, 48]
  {
    match v
    case Number(b) => AllDigits(b);
    case Integer(b) => AllDigits(b);
    case Boolean(b) => HexFormat([if b then 1 else 0], 0);
    case Str(b) => if 0 !in b { WholeCString(b); }
    case _ =>
  }

  lemma AllDigits(b: seq<Byte>)
    ensures forall k: nat | k < |b| ::
              Hex(b)[2 * k] == HEX_DIGITS[b[k] / 16] && Hex(b)[2 * k + 1] == HEX_DIGITS[b[k] % 16]
  {
    forall k: nat | k < |b|
      ensures Hex(b)[2 * k] == HEX_DIGITS[b[k] / 16] && Hex(b)[2 * k + 1] == HEX_DIGITS[b[k] % 16]
    {
      HexFormat(b, k);
    }
  }

  lemma {:induction false} WholeCString(b: seq<Byte>)
    requires 0 !in b
    ensures CString(b) == b
  {
    if b != [] {
      WholeCString(b[1..]);
    }
  }

  /** The length found for a packed string is that of its first plain bytes. */
  lemma {:induction false} HexLenIsPlainPrefix(s: Text, at: nat, t: Text, bytes: seq<Byte>)
    requires HoldsAt(s, at, t) && t == Hex(bytes) + [ZERO, ZERO]
    ensures HexLen(s, at) == Some(PlainPrefix(bytes))
    decreases |bytes|
  {
    HeldChar(s, at, t, 0);
    HeldChar(s, at, t, 1);
    if bytes != [] {
      HexAt(bytes, 0);
      NibbleOfDigit(bytes[0] / 16);
      NibbleOfDigit(bytes[0] % 16);
      HexTail(bytes);
      HeldTail(s, at, t, 2);
      assert t[2..] == Hex(bytes[1..]) + [ZERO, ZERO];
      HexLenIsPlainPrefix(s, at + 2, t[2..], bytes[1..]);
    }
  }

  lemma HeldTail(s: Text, at: nat, t: Text, n: nat)
    requires HoldsAt(s, at, t) && n <= |t|
    ensures HoldsAt(s, at + n, t[n..])
  {
    var u := t[n..];
    forall k | 0 <= k < |u|
      ensures s[at + n + k] == u[k]
    {
      HeldChar(s, at, t, n + k);
    }
  }

  lemma {:induction false} HexTail(bytes: seq<Byte>)
    requires bytes != []
    ensures Hex(bytes)[2..] == Hex(bytes[1..])
    decreases |bytes|
  {
    var n := |bytes|;
    if n > 1 {
      HexTail(bytes[..n - 1]);
      assert bytes[..n - 1][1..] == bytes[1..][..n - 2];
      assert bytes[1..][n - 2] == bytes[n - 1];
    }
  }

  lemma {:induction false} PlainCString(bytes: seq<Byte>)
    requires forall k | 0 <= k < |bytes| :: Plain(bytes[k])
    ensures CString(bytes) == bytes
  {
    if bytes != [] {
      PlainCString(bytes[1..]);
    }
  }

  /** What is read for a packed string: the plain bytes that its C string starts with. */
  lemma ReadString(s: Text, at: nat, t: Text, c: seq<Byte>, n: nat)
    requires HoldsAt(s, at, t + [ZERO, ZERO]) && t == Hex(c) && n == PlainPrefix(c)
    ensures ReadOne(s, 4, at) == Read([Str(c[..n])], at + 2 * n + 2)
  {
    HexLenIsPlainPrefix(s, at, t + [ZERO, ZERO], c);
    HeldStart(s, at, t, [ZERO, ZERO]);
    UnhexHex(s, at, t, c, n);
    PlainCString(c[..n]);
  }

  lemma HeldStart(s: Text, at: nat, t: Text, more: Text)
    requires HoldsAt(s, at, t + more)
    ensures HoldsAt(s, at, t)
  {
    forall k | 0 <= k < |t|
      ensures s[at + k] == t[k]
    {
      HeldChar(s, at, t + more, k);
    }
  }

  lemma StringCleanIff(bytes: seq<Byte>)
    ensures var c := CString(bytes);
            c[..PlainPrefix(c)] == bytes <==> forall k | 0 <= k < |bytes| :: Plain(bytes[k])
  {
    var c := CString(bytes);
    var n := PlainPrefix(c);
    if forall k | 0 <= k < |bytes| :: Plain(bytes[k]) {
      PlainCString(bytes);
      assert c[..n] == bytes;
    }
    if c[..n] == bytes {
      forall k | 0 <= k < |bytes|
        ensures Plain(bytes[k])
      {
        assert bytes[k] == c[k];
      }
    }
  }

  /** One packed value is read back exactly when it is clean, and then the reading goes on behind it. */
  lemma ReadOneIff(s: Text, t: Text, v: Value, at: nat)
    requires HoldsAt(s, at, t) && t == Body(v) && Sized(v) && v != Other
    ensures Clean(v) ==> ReadOne(s, TypeOf(v), at) == Read([v], at + |t|)
    ensures !Clean(v) ==> exists w, at' :: ReadOne(s, TypeOf(v), at) == Read([w], at') && w != v
  {
    match v
    case Number(b) => UnhexHex(s, at, t, b, |b|);
    case Integer(b) => UnhexHex(s, at, t, b, |b|);
    case Nil =>
    case Boolean(b) => UnhexHex(s, at, t, [if b then 1 else 0], 1);
    case Str(b) => ReadStringIff(s, t, b, at);
    case Other =>
  }

  lemma ReadStringIff(s: Text, t: Text, b: seq<Byte>, at: nat)
    requires HoldsAt(s, at, t) && t == Body(Str(b))
    ensures Clean(Str(b)) ==> ReadOne(s, 4, at) == Read([Str(b)], at + |t|)
    ensures !Clean(Str(b)) ==> exists w, at' :: ReadOne(s, 4, at) == Read([w], at') && w != Str(b)
  {
    var c := CString(b);
    var n := PlainPrefix(c);
    ReadString(s, at, Hex(c), c, n);
    StringCleanIff(b);
    if Clean(Str(b)) {
      PlainCString(b);
    } else {
      OtherString(s, b, c[..n], at, at + 2 * n + 2);
    }
  }

  lemma OtherString(s: Text, b: seq<Byte>, c: seq<Byte>, at: nat, next: nat)
    requires ReadOne(s, 4, at) == Read([Str(c)], next) && c != b
    ensures exists w, at' :: ReadOne(s, 4, at) == Read([w], at') && w != Str(b)
  {
    var w := Str(c);
    assert ReadOne(s, 4, at) == Read([w], next) && w != Str(b);
  }

  lemma {:induction false} BodyAt(vs: seq<Value>, i: nat)
    requires i < |vs|
    ensures HoldsAt(Bodies(vs), |Bodies(vs[..i])|, Body(vs[i]))
    decreases |vs|
  {
    var ws, last := vs[..|vs| - 1], vs[|vs| - 1];
    if i < |vs| - 1 {
      BodyAt(ws, i);
      assert ws[..i] == vs[..i] && ws[i] == vs[i];
      HeldPrefix(Bodies(ws), Body(last), |Bodies(vs[..i])|, Body(vs[i]));
    } else {
      assert vs[..i] == ws;
      HeldEnd(Bodies(ws), Body(last));
    }
  }

  lemma HeldEnd(s: Text, t: Text)
    ensures HoldsAt(s + t, |s|, t)
  {
  }

  lemma BodiesNext(vs: seq<Value>, i: nat)
    requires i < |vs|
    ensures |Bodies(vs[..i + 1])| == |Bodies(vs[..i])| + |Body(vs[i])|
  {
    assert vs[..i + 1][..i] == vs[..i];
  }

  lemma HeldPrefix(s: Text, more: Text, at: nat, t: Text)
    requires HoldsAt(s, at, t)
    ensures HoldsAt(s + more, at, t)
  {
  }

  lemma HeldFirst(t: Text, more: Text)
    ensures HoldsAt(t + more, 0, t)
  {
  }

  lemma HeldBehind(h: Text, s: Text, at: nat, t: Text)
    requires HoldsAt(s, at, t)
    ensures HoldsAt(h + s, |h| + at, t)
  {
    forall k | 0 <= k < |t|
      ensures (h + s)[|h| + at + k] == t[k]
    {
      HeldChar(s, at, t, k);
    }
  }

  /** Where value `i` stands in the packed string */
  function PlaceOf(vs: seq<Value>, i: nat): nat
    requires i <= |vs|
  {
    2 * HeaderLength(|vs|) + |Bodies(vs[..i])|
  }

  ghost predicate IsPacked(s: Text, vs: seq<Value>) {
    (forall i | 0 <= i < |vs| :: Sized(vs[i]) && vs[i] != Other) && s == Hex(Header(vs)) + Bodies(vs)
  }

  lemma ValueAt(vs: seq<Value>, s: Text, i: nat)
    requires IsPacked(s, vs) && i < |vs|
    ensures 2 * (1 + i / 2) + 2 <= |s| && TypeAt(s, i) == TypeOf(vs[i])
    ensures HoldsAt(s, PlaceOf(vs, i), Body(vs[i]))
    ensures PlaceOf(vs, i + 1) == PlaceOf(vs, i) + |Body(vs[i])|
  {
    HeldFirst(Hex(Header(vs)), Bodies(vs));
    TypeAtHeader(s, Hex(Header(vs)), vs, i);
    BodyPlaced(vs, s, Hex(Header(vs)), i);
    BodiesNext(vs, i);
  }

  lemma BodyPlaced(vs: seq<Value>, s: Text, h: Text, i: nat)
    requires i < |vs| && s == h + Bodies(vs)
    ensures HoldsAt(s, |h| + |Bodies(vs[..i])|, Body(vs[i]))
  {
    BodyAt(vs, i);
    HeldBehind(h, Bodies(vs), |Bodies(vs[..i])|, Body(vs[i]));
  }

  predicate CleanFrom(vs: seq<Value>, i: nat)
    decreases |vs| - i
  {
    i >= |vs| || (Clean(vs[i]) && CleanFrom(vs, i + 1))
  }

  lemma {:induction false} CleanFromMeans(vs: seq<Value>, i: nat)
    ensures CleanFrom(vs, i) <==> forall j | i <= j < |vs| :: Clean(vs[j])
    decreases |vs| - i
  {
    if i < |vs| {
      CleanFromMeans(vs, i + 1);
    }
  }

  /** After a clean value the rest decides. */
  lemma CleanStep(vs: seq<Value>, s: Text, i: nat, at: nat, next: nat)
    requires i < |vs| && 2 * (1 + i / 2) + 2 <= |s| && TypeAt(s, i) == TypeOf(vs[i])
    requires ReadOne(s, TypeOf(vs[i]), at) == Read([vs[i]], next)
    ensures ReadFrom(s, i, |vs|, at) == Some(vs[i..]) <==> ReadFrom(s, i + 1, |vs|, next) == Some(vs[i + 1..])
  {
    assert vs[i..] == [vs[i]] + vs[i + 1..];
    var r := ReadFrom(s, i + 1, |vs|, next);
    if r.Some? && [vs[i]] + r.value == vs[i..] {
      assert ([vs[i]] + r.value)[1..] == r.value && vs[i..][1..] == vs[i + 1..];
    }
  }

  /** A value that is read differently decides by itself. */
  lemma DirtyStep(vs: seq<Value>, s: Text, i: nat, at: nat)
    requires i < |vs| && 2 * (1 + i / 2) + 2 <= |s| && TypeAt(s, i) == TypeOf(vs[i])
    requires exists w, at' :: ReadOne(s, TypeOf(vs[i]), at) == Read([w], at') && w != vs[i]
    ensures ReadFrom(s, i, |vs|, at) != Some(vs[i..])
  {
    var w, at' :| ReadOne(s, TypeOf(vs[i]), at) == Read([w], at') && w != vs[i];
    var r := ReadFrom(s, i + 1, |vs|, at');
    if r.Some? {
      assert ([w] + r.value)[0] == w && vs[i..][0] == vs[i];
    }
  }

  lemma ReadsHere(vs: seq<Value>, s: Text, i: nat, at: nat, t: Text)
    requires IsPacked(s, vs) && i < |vs| && at == PlaceOf(vs, i) && t == Body(vs[i])
    ensures 2 * (1 + i / 2) + 2 <= |s| && TypeAt(s, i) == TypeOf(vs[i]) && PlaceOf(vs, i + 1) == at + |t|
    ensures Clean(vs[i]) ==> ReadOne(s, TypeOf(vs[i]), at) == Read([vs[i]], at + |t|)
    ensures !Clean(vs[i]) ==> exists w, at' :: ReadOne(s, TypeOf(vs[i]), at) == Read([w], at') && w != vs[i]
  {
    ValueAt(vs, s, i);
    ReadOneIff(s, t, vs[i], at);
  }

  lemma ReadsClean(vs: seq<Value>, s: Text, i: nat, at: nat, next: nat)
    requires IsPacked(s, vs) && i < |vs| && at == PlaceOf(vs, i) && next == PlaceOf(vs, i + 1) && Clean(vs[i])
    ensures 2 * (1 + i / 2) + 2 <= |s| && TypeAt(s, i) == TypeOf(vs[i])
    ensures ReadOne(s, TypeOf(vs[i]), at) == Read([vs[i]], next)
  {
    ReadsHere(vs, s, i, at, Body(vs[i]));
  }

  lemma ReadClean(vs: seq<Value>, s: Text, i: nat, at: nat, next: nat)
    requires IsPacked(s, vs) && i < |vs| && at == PlaceOf(vs, i) && next == PlaceOf(vs, i + 1) && Clean(vs[i])
    ensures ReadFrom(s, i, |vs|, at) == Some(vs[i..]) <==> ReadFrom(s, i + 1, |vs|, next) == Some(vs[i + 1..])
  {
    ReadsClean(vs, s, i, at, next);
    CleanStep(vs, s, i, at, next);
  }

  lemma ReadDirty(vs: seq<Value>, s: Text, i: nat, at: nat)
    requires IsPacked(s, vs) && i < |vs| && at == PlaceOf(vs, i) && !Clean(vs[i])
    ensures ReadFrom(s, i, |vs|, at) != Some(vs[i..])
  {
    ReadsHere(vs, s, i, at, Body(vs[i]));
    DirtyStep(vs, s, i, at);
  }

  lemma {:induction false} ReadFromIff(vs: seq<Value>, s: Text, i: nat)
    requires IsPacked(s, vs) && i <= |vs|
    ensures ReadFrom(s, i, |vs|, PlaceOf(vs, i)) == Some(vs[i..]) <==> CleanFrom(vs, i)
    decreases |vs| - i
  {
    if i < |vs| {
      if Clean(vs[i]) {
        ReadClean(vs, s, i, PlaceOf(vs, i), PlaceOf(vs, i + 1));
        ReadFromIff(vs, s, i + 1);
      } else {
        ReadDirty(vs, s, i, PlaceOf(vs, i));
      }
    } else {
      assert vs[i..] == [];
    }
  }

  lemma ReadCount(s: Text, header: seq<Byte>, rest: Text)
    requires header != [] && s == Hex(header) + rest
    ensures |s| >= 2 && Unhex(s, 0, 1)[0] == header[0]
  {
    HeldFirst(Hex(header), rest);
    UnhexHex(s, 0, Hex(header), header, 1);
    assert header[..1][0] == header[0];
  }

  lemma HeaderFirst(vs: seq<Value>)
    ensures Header(vs) != [] && Header(vs)[0] == CountByte(|vs|)
  {
  }

  lemma SmallCount(n: nat)
    requires n <= 255
    ensures CountByte(n) == n
  {
  }

  lemma CountIsRead(vs: seq<Value>, h: seq<Byte>, s: Text)
    requires h == Header(vs) && s == Hex(h) + Bodies(vs) && 1 <= |vs| <= 255
    ensures |s| >= 2 && Unhex(s, 0, 1)[0] == |vs|
  {
    HeaderFirst(vs);
    SmallCount(|vs|);
    ReadCount(s, h, Bodies(vs));
  }

  lemma NoOther(vs: seq<Value>)
    requires forall i | 0 <= i < |vs| :: vs[i] != Other
    ensures FirstOther(vs) == |vs|
  {
  }

  lemma UnpackReads(vs: seq<Value>, s: Text)
    requires IsPacked(s, vs) && 1 <= |vs| <= 255
    ensures Unpack(s) == ReadFrom(s, 0, |vs|, PlaceOf(vs, 0))
  {
    CountIsRead(vs, Header(vs), s);
  }

  /** No more values are read than the count says. */
  lemma {:induction false} ReadAtMost(s: Text, i: nat, total: nat, at: nat)
    requires i <= total
    ensures ReadFrom(s, i, total, at).Some? ==> |ReadFrom(s, i, total, at).value| <= total - i
    decreases total - i
  {
    if i < total && 2 * (1 + i / 2) + 2 <= |s| {
      var one := ReadOne(s, TypeAt(s, i), at);
      if one.Read? {
        ReadAtMost(s, i + 1, total, one.at);
      }
    }
  }

  lemma LongCount(n: nat)
    requires n > 255
    ensures CountByte(n) < n
  {
  }

  /** A list of more than 255 values comes back shorter. */
  lemma TooMany(vs: seq<Value>, s: Text)
    requires IsPacked(s, vs) && |vs| > 255
    ensures Unpack(s) != Some(vs)
  {
    HeaderFirst(vs);
    ReadCount(s, Header(vs), Bodies(vs));
    LongCount(|vs|);
    ReadAtMost(s, 0, CountByte(|vs|), 2 * HeaderLength(CountByte(|vs|)));
  }

  lemma RoundTripOfFew(vs: seq<Value>, s: Text)
    requires IsPacked(s, vs) && 1 <= |vs| <= 255
    ensures Unpack(s) == Some(vs) <==> forall i | 0 <= i < |vs| :: Clean(vs[i])
  {
    UnpackReads(vs, s);
    ReadFromIff(vs, s, 0);
    CleanFromMeans(vs, 0);
    assert vs[0..] == vs;
  }

  /** Unpacking what was packed gives the same values exactly when there are at most 255 of them and every
      byte of every string has two non-zero nibbles.  A char is unsigned here. */
  lemma RoundTripIff(vs: seq<Value>)
    requires 1 <= |vs| && forall i | 0 <= i < |vs| :: Sized(vs[i]) && vs[i] != Other
    ensures Pack(vs).Packed?
    ensures Unpack(Pack(vs).text) == Some(vs) <==> |vs| <= 255 && forall i | 0 <= i < |vs| :: Clean(vs[i])
  {
    NoOther(vs);
    var s := Pack(vs).text;
    if |vs| <= 255 {
      RoundTripOfFew(vs, s);
    } else {
      TooMany(vs, s);
    }
  }

  // ---------- the loops ----------

  lemma HexNext(bytes: seq<Byte>, i: nat)
    requires i < |bytes|
    ensures Hex(bytes[..i + 1]) == Hex(bytes[..i]) + [Digit(bytes[i] / 16), Digit(bytes[i] % 16)]
  {
    assert bytes[..i + 1][..i] == bytes[..i];
  }

  lemma Overwrite(s: Text, a: Text, h: Text, c: Text, d: Text)
    requires s == a + h + c && |d| <= |c|
    ensures |a| + |h| + |d| <= |s|
    ensures s[..|a| + |h|] + d + s[|a| + |h| + |d|..] == a + (h + d) + c[|d|..]
  {
  }

  lemma OverwriteNext(s: Text, was: Text, at: nat, p: nat, bytes: seq<Byte>, i: nat)
    requires i < |bytes| && p == at + 2 * i && p + 2 <= |was|
    requires s == was[..at] + Hex(bytes[..i]) + was[p..]
    ensures |s| == |was|
    ensures s[..p] + [Digit(bytes[i] / 16), Digit(bytes[i] % 16)] + s[p + 2..] ==
            was[..at] + Hex(bytes[..i + 1]) + was[p + 2..]
  {
    var d := [Digit(bytes[i] / 16), Digit(bytes[i] % 16)];
    HexNext(bytes, i);
    Overwrite(s, was[..at], Hex(bytes[..i]), was[p..], d);
    assert was[p..][2..] == was[p + 2..];
  }

  /** The two digits of one byte */
  method WriteByte(buffer: array<Byte>, p: nat, b: Byte)
    requires p + 2 <= buffer.Length
    modifies buffer
    ensures buffer[..] == old(buffer[..])[..p] + [Digit(b / 16), Digit(b % 16)] + old(buffer[..])[p + 2..]
  {
    var high, low := b / 16, b % 16;
    if high <= 9 { buffer[p] := ZERO + high; } else { buffer[p] := LETTER_A + (high - 10); }
    if low <= 9 { buffer[p + 1] := ZERO + low; } else { buffer[p + 1] := LETTER_A + (low - 10); }
  }

  /** val_to_hex_string writes to place `at` of the buffer. */
  method ValToHexString(buffer: array<Byte>, at: nat, bytes: seq<Byte>)
    requires at + 2 * |bytes| <= buffer.Length
    modifies buffer
    ensures buffer[..] == old(buffer[..at]) + Hex(bytes) + old(buffer[at + 2 * |bytes|..])
  {
    ghost var was := buffer[..];
    var p, i := at, 0;
    while i < |bytes|
      invariant i <= |bytes| && p == at + 2 * i
      invariant buffer[..] == was[..at] + Hex(bytes[..i]) + was[p..]
    {
      OverwriteNext(buffer[..], was, at, p, bytes, i);
      WriteByte(buffer, p, bytes[i]);
      p, i := p + 2, i + 1;
    }
    assert bytes[..i] == bytes;
  }

  /** hex_string_to_val */
  method HexStringToVal(s: Text, at: nat, len: nat) returns (bytes: seq<Byte>)
    requires at + 2 * len <= |s|
    ensures bytes == Unhex(s, at, len)
  {
    bytes := [];
    var p, i := at, 0;
    while i < len
      invariant i <= len && p == at + 2 * i && bytes == Unhex(s, at, i)
    {
      var c := 0;
      if ZERO <= s[p] <= ZERO + 9 { c := (s[p] - ZERO) * 16; }
      if LETTER_A <= s[p] <= LETTER_A + 5 { c := (10 + (s[p] - LETTER_A)) * 16; }
      p := p + 1;
      if ZERO <= s[p] <= ZERO + 9 { c := c + (s[p] - ZERO); }
      if LETTER_A <= s[p] <= LETTER_A + 5 { c := c + (10 + (s[p] - LETTER_A)); }
      p := p + 1;
      bytes := bytes + [c];
      i := i + 1;
    }
  }

  /** hex_string_len; nothing if no pair with a '0' comes before the end of the string */
  method HexStringLen(s: Text, at: nat) returns (len: Option<nat>)
    ensures len == HexLen(s, at)
  {
    var p, n := at, 0;
    while p + 2 <= |s| && s[p] != ZERO && s[p + 1] != ZERO
      invariant p == at + 2 * n
      invariant HexLen(s, at) == match HexLen(s, p) case None => None case Some(m) => Some(m + n)
      decreases |s| - p
    {
      n, p := n + 1, p + 2;
    }
    len := if p + 2 > |s| then None else Some(n);
  }

  /** The bytes that l_pack counts for a value when it sizes its buffer */
  function SizeOf(v: Value): nat {
    match v
    case Number(_) => NUMBER_SIZE
    case Integer(_) => INTEGER_SIZE
    case Boolean(_) => 1
    case Str(b) => |b| + 1
    case _ => 0
  }

  function SizeFrom(vs: seq<Value>, i: nat): nat
    decreases |vs| - i
  {
    if i >= |vs| then 0 else SizeOf(vs[i]) + SizeFrom(vs, i + 1)
  }

  lemma BodyFits(v: Value)
    requires Sized(v)
    ensures |Body(v)| <= 2 * SizeOf(v)
  {
  }

  /** The loop of l_pack over the sizes */
  method ArgumentSize(vs: seq<Value>) returns (size: nat)
    ensures size == SizeFrom(vs, 0)
  {
    size := 0;
    var i: nat := 0;
    while i < |vs|
      invariant i <= |vs| && size + SizeFrom(vs, i) == SizeFrom(vs, 0)
    {
      size := size + SizeOf(vs[i]);
      i := i + 1;
    }
  }

  method WriteDigits(buffer: array<Byte>, at: nat, bytes: seq<Byte>) returns (next: nat)
    requires at + 2 * |bytes| <= buffer.Length
    modifies buffer
    ensures next == at + 2 * |bytes| && buffer[..next] == old(buffer[..at]) + Hex(bytes)
  {
    ValToHexString(buffer, at, bytes);
    next := at + 2 * |bytes|;
    assert buffer[..next] == buffer[..][..next];
  }

  method WriteString(buffer: array<Byte>, at: nat, bytes: seq<Byte>) returns (next: nat)
    requires at + 2 * |CString(bytes)| + 2 <= buffer.Length
    modifies buffer
    ensures next == at + |Body(Str(bytes))| && buffer[..next] == old(buffer[..at]) + Body(Str(bytes))
  {
    next := WriteDigits(buffer, at, CString(bytes));
    ghost var before := buffer[..next];
    buffer[next] := ZERO;
    next := next + 1;
    buffer[next] := ZERO;
    next := next + 1;
    assert buffer[..next] == before + [ZERO, ZERO];
  }

  /** The switch in l_pack: writes the digits of one value and gives the new place. */
  method WriteBody(buffer: array<Byte>, at: nat, v: Value) returns (next: nat)
    requires v != Other && Sized(v) && at + |Body(v)| <= buffer.Length
    modifies buffer
    ensures next == at + |Body(v)| && buffer[..next] == old(buffer[..at]) + Body(v)
  {
    match v
    case Number(b) => next := WriteDigits(buffer, at, b);
    case Integer(b) => next := WriteDigits(buffer, at, b);
    case Nil => next := at;
    case Boolean(b) => next := WriteDigits(buffer, at, [if b then 1 else 0]);
    case Str(b) => next := WriteString(buffer, at, b);
    case Other => next := at;
  }

  /** The header while the first i values have been written */
  ghost predicate HeaderUpTo(header: seq<Byte>, vs: seq<Value>, i: nat)
    requires i <= |vs|
  {
    && |header| == HeaderLength(|vs|) && header[0] == CountByte(|vs|)
    && forall k | 0 <= k < (i + 1) / 2 :: TypesAt(header, vs[..i], k)
  }

  ghost predicate TypesAt(header: seq<Byte>, vs: seq<Value>, k: nat)
    requires 1 + k < |header| && 2 * k < |vs|
  {
    header[1 + k] == TypeByte(vs, k)
  }

  lemma HeaderNext(header: seq<Byte>, header': seq<Byte>, vs: seq<Value>, i: nat)
    requires i < |vs| && HeaderUpTo(header, vs, i)
    requires header' == header[1 + i / 2 := if i % 2 == 0 then TypeOf(vs[i]) * 16 else TypeByte(vs[..i], i / 2) + TypeOf(vs[i])]
    ensures HeaderUpTo(header', vs, i + 1)
  {
    var ws := vs[..i + 1];
    forall k | 0 <= k < (i + 2) / 2
      ensures TypesAt(header', ws, k)
    {
      if k < (i + 1) / 2 {
        assert TypesAt(header, vs[..i], k);
      }
      if k < i / 2 {
        assert TypeByte(ws, k) == TypeByte(vs[..i], k);
      }
    }
  }

  lemma HeaderDone(header: seq<Byte>, vs: seq<Value>)
    requires HeaderUpTo(header, vs, |vs|)
    ensures header == Header(vs)
  {
    assert vs[..|vs|] == vs;
    var h := Header(vs);
    HeaderFirst(vs);
    forall j | 0 < j < |header|
      ensures header[j] == h[j]
    {
      assert TypesAt(header, vs, j - 1);
      HeaderAt(vs, j - 1);
    }
  }

  /** The type of value `i` goes into its nibble of the header. */
  method WriteType(header: array<Byte>, vs: seq<Value>, i: nat)
    requires i < |vs| && HeaderUpTo(header[..], vs, i)
    modifies header
    ensures HeaderUpTo(header[..], vs, i + 1)
  {
    ghost var was := header[..];
    var k := 1 + i / 2;
    if i % 2 == 0 {
      header[k] := 0;
      header[k] := header[k] + TypeOf(vs[i]) * 16;
    } else {
      LowNibbleFree(vs, i);
      assert TypesAt(was, vs[..i], i / 2);
      header[k] := header[k] + TypeOf(vs[i]);
    }
    HeaderNext(was, header[..], vs, i);
  }

  lemma LowNibbleFree(vs: seq<Value>, i: nat)
    requires i < |vs| && i % 2 == 1
    ensures i / 2 < (i + 1) / 2 && TypeByte(vs[..i], i / 2) % 16 == 0 && TypeByte(vs[..i], i / 2) + 15 < 256
  {
  }

  lemma BodiesStep(vs: seq<Value>, i: nat)
    requires i < |vs|
    ensures Bodies(vs[..i + 1]) == Bodies(vs[..i]) + Body(vs[i])
  {
    assert vs[..i + 1][..i] == vs[..i];
  }

  lemma OtherFound(vs: seq<Value>, i: nat)
    requires i < |vs| && i <= FirstOther(vs)
    ensures vs[i] == Other <==> i == FirstOther(vs)
  {
  }

  /** The main loop of l_pack.  It stops at a value of an unsupported type. */
  method WriteValues(vs: seq<Value>, header: array<Byte>, buffer: array<Byte>, start: nat) returns (at: nat, done: nat)
    requires forall i | 0 <= i < |vs| :: Sized(vs[i])
    requires header != buffer && HeaderUpTo(header[..], vs, 0) && start + 2 * SizeFrom(vs, 0) < buffer.Length
    modifies header, buffer
    ensures done == FirstOther(vs)
    ensures done == |vs| ==> HeaderUpTo(header[..], vs, |vs|) && BodiesUpTo(buffer[..], vs, start, at, |vs|)
  {
    at, done := start, 0;
    while done < |vs|
      invariant done <= FirstOther(vs)
      invariant HeaderUpTo(header[..], vs, done) && BodiesUpTo(buffer[..], vs, start, at, done)
    {
      OtherFound(vs, done);
      if vs[done] == Other {
        return;
      }
      at := WriteOne(vs, header, buffer, start, at, done);
      done := done + 1;
    }
  }

  /** The buffer holds the first i values from `start` on, ended by a zero, and has room for the rest. */
  ghost predicate BodiesUpTo(buffer: Text, vs: seq<Value>, start: nat, at: nat, i: nat)
    requires i <= |vs|
  {
    && start <= at && at + 2 * SizeFrom(vs, i) < |buffer| && buffer[start..at] == Bodies(vs[..i])
    && (i > 0 ==> buffer[at] == 0)
  }

  method WriteOne(vs: seq<Value>, header: array<Byte>, buffer: array<Byte>, start: nat, at: nat, i: nat) returns (next: nat)
    requires i < |vs| && Sized(vs[i]) && vs[i] != Other && header != buffer
    requires HeaderUpTo(header[..], vs, i) && BodiesUpTo(buffer[..], vs, start, at, i)
    modifies header, buffer
    ensures HeaderUpTo(header[..], vs, i + 1) && BodiesUpTo(buffer[..], vs, start, next, i + 1)
  {
    WriteType(header, vs, i);
    assert buffer[start..at] == buffer[..][start..at];
    next := WriteNext(vs, buffer, start, at, i);
    assert buffer[start..next] == buffer[..][start..next];
  }

  /** Writes one value and ends the string behind it. */
  method WriteNext(vs: seq<Value>, buffer: array<Byte>, start: nat, at: nat, i: nat) returns (next: nat)
    requires i < |vs| && Sized(vs[i]) && vs[i] != Other
    requires start <= at && at + 2 * SizeFrom(vs, i) < buffer.Length && buffer[start..at] == Bodies(vs[..i])
    modifies buffer
    ensures at <= next && next + 2 * SizeFrom(vs, i + 1) < buffer.Length
    ensures buffer[start..next] == Bodies(vs[..i + 1]) && buffer[next] == 0
  {
    BodyFits(vs[i]);
    BodiesStep(vs, i);
    ghost var before := buffer[..at];
    assert before[start..] == buffer[start..at];
    next := WriteBody(buffer, at, vs[i]);
    Appended(buffer[..next], before, Body(vs[i]), start);
    assert buffer[start..next] == buffer[..next][start..];
    buffer[next] := 0;
  }

  /** l_pack: the buffer is large enough for whatever is written to it. */
  method PackValues(vs: seq<Value>) returns (r: Packing)
    requires forall i | 0 <= i < |vs| :: Sized(vs[i])
    ensures r == Pack(vs)
  {
    if |vs| == 0 {
      return MissingArguments;
    }
    var length := HeaderLength(|vs|);
    var header := new Byte[length];
    header[0] := CountByte(|vs|);
    var size := ArgumentSize(vs);
    var buffer := new Byte[(length + size) * 2 + 1];
    var at, done := WriteValues(vs, header, buffer, length * 2);
    if done < |vs| {
      return UnsupportedType(done + 1);
    }
    HeaderDone(header[..], vs);
    ghost var was := buffer[..];
    ValToHexString(buffer, 0, header[..]);
    PackedInBuffer(vs, was, buffer[..], Hex(header[..]), at);
    r := Packed(CString(buffer[..]));
  }

  /** Once the header stands before the values the buffer holds the packed string. */
  lemma PackedInBuffer(vs: seq<Value>, was: Text, now: Text, h: Text, at: nat)
    requires vs != [] && h == Hex(Header(vs)) && |h| <= |was| && now == was[..0] + h + was[|h|..]
    requires BodiesUpTo(was, vs, |h|, at, |vs|)
    ensures CString(now) == h + Bodies(vs)
  {
    assert vs[..|vs|] == vs;
    JoinParts(now, was, h, at);
    HexNonzero(Header(vs));
    BodiesNonzero(vs);
    EndsAt(now, h + Bodies(vs));
  }

  lemma JoinParts(now: Text, was: Text, h: Text, at: nat)
    requires |h| <= at < |was| && now == was[..0] + h + was[|h|..]
    ensures |now| == |was| && now[..at] == h + was[|h|..at] && now[at] == was[at]
  {
  }

  /** The string in a buffer ends at the first zero. */
  lemma {:induction false} EndsAt(s: Text, t: Text)
    requires |t| < |s| && s[..|t|] == t && s[|t|] == 0 && 0 !in t
    ensures CString(s) == t
  {
    if t != [] {
      assert s[0] == t[0] && t[0] in t && s[1..][..|t| - 1] == t[1..];
      EndsAt(s[1..], t[1..]);
    }
  }

  lemma {:induction false} HexNonzero(bytes: seq<Byte>)
    ensures 0 !in Hex(bytes)
  {
    if bytes != [] {
      HexNonzero(bytes[..|bytes| - 1]);
    }
  }

  lemma {:induction false} BodiesNonzero(vs: seq<Value>)
    ensures 0 !in Bodies(vs)
  {
    if vs != [] {
      BodiesNonzero(vs[..|vs| - 1]);
      BodyNonzero(vs[|vs| - 1]);
    }
  }

  lemma BodyNonzero(v: Value)
    ensures 0 !in Body(v)
  {
    match v
    case Number(b) => HexNonzero(b);
    case Integer(b) => HexNonzero(b);
    case Boolean(b) => HexNonzero([if b then 1 else 0]);
    case Str(b) => HexNonzero(CString(b));
    case _ =>
  }

  lemma Appended(s: Text, before: Text, t: Text, from: nat)
    requires from <= |before| && s == before + t
    ensures s[from..] == before[from..] + t
  {
  }

  /** The switch in l_unpack */
  method ReadValue(s: Text, ctype: int, at: nat) returns (r: Read)
    ensures r == ReadOne(s, ctype, at)
  {
    if ctype == 0 {
      if at + 2 * NUMBER_SIZE > |s| { return Overrun; }
      var b := HexStringToVal(s, at, NUMBER_SIZE);
      r := Read([Number(b)], at + 2 * NUMBER_SIZE);
    } else if ctype == 1 {
      if at + 2 * INTEGER_SIZE > |s| { return Overrun; }
      var b := HexStringToVal(s, at, INTEGER_SIZE);
      r := Read([Integer(b)], at + 2 * INTEGER_SIZE);
    } else if ctype == 2 {
      r := Read([Nil], at);
    } else if ctype == 3 {
      if at + 2 > |s| { return Overrun; }
      var b := HexStringToVal(s, at, 1);
      r := Read([Boolean(b[0] != 0)], at + 2);
    } else if ctype == 4 {
      var len := HexStringLen(s, at);
      if len == None || at + 2 * len.value + 2 > |s| { return Overrun; }
      var b := HexStringToVal(s, at, len.value);
      r := Read([Str(CString(b))], at + 2 * len.value + 2);
    } else {
      r := Read([], at);
    }
  }

  lemma NibblesOfByte(s: Text, i: nat, headerv: Byte)
    requires TypesRead(s, i, headerv)
    ensures TypeAt(s, i) == if i % 2 == 0 then headerv / 16 else headerv % 16
  {
    UnhexAt(s, 2 * (1 + i / 2), 1, 0);
  }

  /** Values read before the rest was read */
  function Joined(vs: seq<Value>, rest: Option<seq<Value>>): Option<seq<Value>> {
    match rest
    case None => None
    case Some(ws) => Some(vs + ws)
  }

  /** The header byte with the type of value `i` is there, and has been read. */
  predicate TypesRead(s: Text, i: nat, headerv: Byte) {
    2 * (1 + i / 2) + 2 <= |s| && headerv == Unhex(s, 2 * (1 + i / 2), 1)[0]
  }

  /** l_unpack; nothing if it would read behind the end of the string */
  method UnpackValues(s: Text) returns (r: Option<seq<Value>>)
    ensures r == Unpack(s)
  {
    if |s| < 2 {
      return None;
    }
    var first := HexStringToVal(s, 0, 1);
    var total := first[0];
    var vs: seq<Value> := [];
    var at: nat := HeaderLength(total) * 2;
    var i: nat := 0;
    UnpackStart(s, total, at);
    var headerv: Byte := 0;
    while i < total
      invariant i <= total && (i % 2 == 1 ==> TypesRead(s, i, headerv))
      invariant Unpack(s) == Joined(vs, ReadFrom(s, i, total, at))
    {
      if i % 2 == 0 {
        if 2 * (1 + i / 2) + 2 > |s| {
          return None;
        }
        var types := HexStringToVal(s, 2 * (1 + i / 2), 1);
        headerv := types[0];
      }
      NibblesOfByte(s, i, headerv);
      var one := ReadValue(s, if i % 2 == 0 then headerv / 16 else headerv % 16, at);
      NextRead(s, i, total, at, vs, one);
      if one == Overrun {
        return None;
      }
      SameByte(s, i, headerv);
      vs, at, i := vs + one.values, one.at, i + 1;
    }
    assert vs + [] == vs;
    r := Some(vs);
  }

  lemma UnpackStart(s: Text, total: nat, at: nat)
    requires |s| >= 2 && total == Unhex(s, 0, 1)[0] && at == HeaderLength(total) * 2
    ensures Unpack(s) == Joined([], ReadFrom(s, 0, total, at))
  {
    var r := ReadFrom(s, 0, total, at);
    if r.Some? {
      assert [] + r.value == r.value;
    }
  }

  /** Two values have their types in one byte. */
  lemma SameByte(s: Text, i: nat, headerv: Byte)
    requires TypesRead(s, i, headerv)
    ensures (i + 1) % 2 == 1 ==> TypesRead(s, i + 1, headerv)
  {
    assert (i + 1) % 2 == 1 ==> (i + 1) / 2 == i / 2;
  }

  lemma NextRead(s: Text, i: nat, total: nat, at: nat, vs: seq<Value>, one: Read)
    requires i < total && 2 * (1 + i / 2) + 2 <= |s| && one == ReadOne(s, TypeAt(s, i), at)
    ensures one.Read? ==> Joined(vs, ReadFrom(s, i, total, at)) == Joined(vs + one.values, ReadFrom(s, i + 1, total, one.at))
    ensures one.Overrun? ==> ReadFrom(s, i, total, at) == None
  {
    if one.Read? && ReadFrom(s, i + 1, total, one.at).Some? {
      var rest := ReadFrom(s, i + 1, total, one.at).value;
      assert vs + (one.values + rest) == (vs + one.values) + rest;
    }
  }
}
