/** Base64 and its URL-safe form without padding (sections 4 and 5 of RFC 4648). */
module Base64 {
  type Byte = n: nat | n < 256

  // ---- the alphabet ----

  function Symbol(v: nat): (c: char)
    requires v < 64
  {
    if v < 26 then ('A' as int + v) as char
    else if v < 52 then ('a' as int + (v - 26)) as char
    else if v < 62 then ('0' as int + (v - 52)) as char
    else if v == 62 then '+' else '/'
  }

  /** The value of a symbol, 0 for the pad, -1 for anything else. */
  function SymbolValue(c: char): (v: int)
    ensures -1 <= v < 64
  {
    if 'A' <= c <= 'Z' then c as int - 'A' as int
    else if 'a' <= c <= 'z' then c as int - 'a' as int + 26
    else if '0' <= c <= '9' then c as int - '0' as int + 52
    else if c == '+' then 62
    else if c == '/' then 63
    else if c == '=' then 0 else -1
  }

  lemma SymbolBack(v: nat)
    requires v < 64
    ensures SymbolValue(Symbol(v)) == v && Symbol(v) != '=' && Symbol(v) != '-' && Symbol(v) != '_' && Symbol(v) != '.'
  {}

  // ---- encoding ----

  function EncodeOne(a: Byte): (s: string)
    ensures |s| == 4
  {
    [Symbol(a / 4), Symbol(a % 4 * 16), '=', '=']
  }

  function EncodeTwo(a: Byte, b: Byte): (s: string)
    ensures |s| == 4
  {
    [Symbol(a / 4), Symbol(a % 4 * 16 + b / 16), Symbol(b % 16 * 4), '=']
  }

  function EncodeThree(a: Byte, b: Byte, c: Byte): (s: string)
    ensures |s| == 4
  {
    [Symbol(a / 4), Symbol(a % 4 * 16 + b / 16), Symbol(b % 16 * 4 + c / 64), Symbol(c % 64)]
  }

  function Encode(data: seq<Byte>): (s: string)
    ensures |s| % 4 == 0 && (s == [] <==> data == [])
  {
    hide EncodeOne, EncodeTwo, EncodeThree;
    if data == [] then []
    else if |data| == 1 then EncodeOne(data[0])
    else if |data| == 2 then EncodeTwo(data[0], data[1])
    else EncodeThree(data[0], data[1], data[2]) + Encode(data[3..])
  }

  /** The four six-bit groups of three bytes. */
  lemma Groups(a: Byte, b: Byte, c: Byte)
    ensures var triple := a * 65536 + b * 256 + c;
            && triple / 262144 % 64 == a / 4
            && triple / 4096 % 64 == a % 4 * 16 + b / 16
            && triple / 64 % 64 == b % 16 * 4 + c / 64
            && triple % 64 == c % 64
  {
    var triple := a * 65536 + b * 256 + c;
    Quotients(triple, a / 4, a * 16 + b / 16, a * 1024 + b * 4 + c / 64);
    RemainderIs(a * 16 + b / 16, a / 4, a % 4 * 16 + b / 16);
    RemainderIs(a * 1024 + b * 4 + c / 64, a * 16 + b / 16, b % 16 * 4 + c / 64);
    RemainderIs(triple, a * 1024 + b * 4 + c / 64, c % 64);
  }

  lemma Quotients(n: nat, first: nat, second: nat, third: nat)
    requires 262144 * first <= n < 262144 * first + 262144
    requires 4096 * second <= n < 4096 * second + 4096
    requires 64 * third <= n < 64 * third + 64
    ensures n / 262144 == first && n / 4096 == second && n / 64 == third
  {}

  lemma RemainderIs(n: nat, q: nat, r: nat)
    requires n == 64 * q + r && r < 64
    ensures n % 64 == r
  {}

  /** Three bytes at a time; missing bytes count as zero and show as pads. */
  method Base64Encode(data: seq<Byte>) returns (out: string)
    ensures out == Encode(data)
  {
    hide Encode;
    out := "";
    var i := 0;
    assert data[0..] == data;
    while i < |data|
      invariant out + Remaining(data, i) == Encode(data)
      decreases |data| - i
    {
      var group := EncodeGroup(data, i);
      EncodeStep(data, i, group);
      out := out + group;
      i := i + 3;
    }
  }

  ghost function Remaining(data: seq<Byte>, i: nat): string {
    if i <= |data| then Encode(data[i..]) else []
  }

  /** The symbols of up to three bytes. */
  method EncodeGroup(data: seq<Byte>, i: nat) returns (group: string)
    requires i < |data|
    ensures group == if i + 2 < |data| then EncodeThree(data[i], data[i + 1], data[i + 2])
                     else if i + 1 < |data| then EncodeTwo(data[i], data[i + 1]) else EncodeOne(data[i])
  {
    hide Symbol;
    var b0 := data[i];
    var b1: Byte := if i + 1 < |data| then data[i + 1] else 0;
    var b2: Byte := if i + 2 < |data| then data[i + 2] else 0;
    var triple := b0 * 65536 + b1 * 256 + b2;
    Groups(b0, b1, b2);
    group := [Symbol(triple / 262144 % 64), Symbol(triple / 4096 % 64),
              if i + 1 < |data| then Symbol(triple / 64 % 64) else '=',
              if i + 2 < |data| then Symbol(triple % 64) else '='];
  }

  lemma EncodeStep(data: seq<Byte>, i: nat, group: string)
    requires i < |data|
    requires group == if i + 2 < |data| then EncodeThree(data[i], data[i + 1], data[i + 2])
                      else if i + 1 < |data| then EncodeTwo(data[i], data[i + 1]) else EncodeOne(data[i])
    ensures Remaining(data, i) == group + Remaining(data, i + 3)
  {
    hide EncodeOne, EncodeTwo, EncodeThree;
    if i + 2 < |data| {
      assert data[i..][3..] == data[i + 3..];
    }
  }

  // ---- decoding ----

  datatype Decoded = Malformed | Bytes(bytes: seq<Byte>)

  function DecodeFour(a: nat, b: nat, c: nat, d: nat): seq<Byte>
    requires a < 64 && b < 64 && c < 64 && d < 64
  {
    [a * 4 + b / 16, b % 16 * 16 + c / 4, c % 4 * 64 + d]
  }

  /** Four symbols at a time; pads decode like zero bits. */
  function DecodeBlock(s: string): Decoded
    requires |s| % 4 == 0
  {
    if s == [] then Bytes([])
    else
      var a, b, c, d := SymbolValue(s[0]), SymbolValue(s[1]), SymbolValue(s[2]), SymbolValue(s[3]);
      if a < 0 || b < 0 || c < 0 || d < 0 then Malformed
      else
        match DecodeBlock(s[4..])
        case Malformed => Malformed
        case Bytes(rest) => Bytes(DecodeFour(a, b, c, d) + rest)
  }

  /** The number of pad characters behind the symbols of some data. */
  function Pads(n: nat): (k: nat)
    ensures k < 3 && (n + k) % 3 == 0
  {
    if n % 3 == 0 then 0 else 3 - n % 3
  }

  lemma FirstByte(a: nat, b: nat)
    requires a < 256 && b < 256
    ensures a / 4 * 4 + (a % 4 * 16 + b / 16) / 16 == a
    ensures (a % 4 * 16 + b / 16) % 16 * 16 + (b % 16 * 4) / 4 == b
  {
    assert (a % 4 * 16 + b / 16) / 16 == a % 4;
    assert (a % 4 * 16 + b / 16) % 16 == b / 16;
  }

  lemma LastByte(b: nat, c: nat)
    requires b < 256 && c < 256
    ensures (b % 16 * 4 + c / 64) / 4 == b % 16
    ensures (b % 16 * 4 + c / 64) % 4 * 64 + c % 64 == c
  {}

  lemma FourBack(a: Byte, b: Byte, c: Byte)
    ensures a / 4 < 64 && a % 4 * 16 + b / 16 < 64 && b % 16 * 4 + c / 64 < 64 && c % 64 < 64
    ensures DecodeFour(a / 4, a % 4 * 16 + b / 16, b % 16 * 4 + c / 64, c % 64) == [a, b, c]
  {
    FirstByte(a, b);
    LastByte(b, c);
  }

  lemma GroupBack(a: Byte, b: Byte, c: Byte, s: string)
    requires |s| >= 4 && |s| % 4 == 0 && DecodeBlock(s[4..]).Bytes?
    requires SymbolValue(s[0]) == a / 4 && SymbolValue(s[1]) == a % 4 * 16 + b / 16
    requires SymbolValue(s[2]) == b % 16 * 4 + c / 64 && SymbolValue(s[3]) == c % 64
    ensures DecodeBlock(s) == Bytes([a, b, c] + DecodeBlock(s[4..]).bytes)
  {
    FourBack(a, b, c);
  }

  function Zeros(n: nat): seq<Byte> {
    seq(n, _ => 0)
  }

  /** Up to three bytes, and zeros for the missing ones. */
  function Three(data: seq<Byte>): (Byte, Byte, Byte)
    requires data != []
  {
    (data[0], if |data| > 1 then data[1] else 0, if |data| > 2 then data[2] else 0)
  }

  /** The values of the first four symbols, for one, two and three bytes. */
  lemma ThreeValues(a: Byte, b: Byte, c: Byte)
    ensures var s := EncodeThree(a, b, c);
            && SymbolValue(s[0]) == a / 4 && SymbolValue(s[1]) == a % 4 * 16 + b / 16
            && SymbolValue(s[2]) == b % 16 * 4 + c / 64 && SymbolValue(s[3]) == c % 64
    ensures EncodeTwo(a, b)[..3] == EncodeThree(a, b, 0)[..3]
    ensures EncodeOne(a)[..2] == EncodeThree(a, 0, 0)[..2]
    ensures SymbolValue('=') == 0
  {
    SymbolBack(a / 4);
    SymbolBack(a % 4 * 16 + b / 16);
    SymbolBack(b % 16 * 4 + c / 64);
    SymbolBack(c % 64);
    PadValue();
    hide Symbol, SymbolValue;
  }

  lemma FirstValues(data: seq<Byte>)
    requires data != []
    ensures var s := Encode(data);
            var (a, b, c) := Three(data);
            && |s| >= 4 && SymbolValue(s[0]) == a / 4 && SymbolValue(s[1]) == a % 4 * 16 + b / 16
            && SymbolValue(s[2]) == b % 16 * 4 + c / 64 && SymbolValue(s[3]) == c % 64
            && s[4..] == Encode(Later(data))
  {
    var (a, b, c) := Three(data);
    ThreeValues(a, b, c);
    hide SymbolValue, EncodeOne, EncodeTwo, EncodeThree;
    var s := Encode(data);
    if |data| == 1 {
      assert s[0] == EncodeOne(a)[..2][0] && s[1] == EncodeOne(a)[..2][1];
      OnePads(a);
    } else if |data| == 2 {
      assert s[0] == EncodeTwo(a, b)[..3][0] && s[1] == EncodeTwo(a, b)[..3][1] && s[2] == EncodeTwo(a, b)[..3][2];
      TwoPads(a, b);
    }
  }

  lemma OnePads(a: Byte)
    ensures EncodeOne(a)[2] == '=' && EncodeOne(a)[3] == '=' && |EncodeOne(a)| == 4
  {}

  lemma TwoPads(a: Byte, b: Byte)
    ensures EncodeTwo(a, b)[3] == '=' && |EncodeTwo(a, b)| == 4
  {}

  lemma PadValue()
    ensures SymbolValue('=') == 0
  {}

  function Later(data: seq<Byte>): seq<Byte> {
    if |data| >= 3 then data[3..] else []
  }

  lemma JoinGroups(data: seq<Byte>)
    requires data != []
    ensures var (a, b, c) := Three(data);
            [a, b, c] + (Later(data) + Zeros(Pads(|Later(data)|))) == data + Zeros(Pads(|data|))
  {
    var (a, b, c) := Three(data);
    if |data| >= 3 {
      assert data == [a, b, c] + data[3..];
    } else {
      assert Pads(|data|) == 3 - |data| && Later(data) + Zeros(Pads(0)) == [];
    }
  }

  /** Decoding gives the data back, with a zero byte for every pad. */
  lemma {:induction false} DecodeEncoded(data: seq<Byte>)
    ensures DecodeBlock(Encode(data)) == Bytes(data + Zeros(Pads(|data|)))
    decreases |data|
  {
    if data == [] {
      assert [] + Zeros(0) == [];
    } else {
      FirstValues(data);
      DecodeEncoded(Later(data));
      JoinGroups(data);
      hide Encode, DecodeBlock, SymbolValue, Pads, Zeros, Later;
      var (a, b, c) := Three(data);
      GroupBack(a, b, c, Encode(data));
    }
  }

  predicate Plain(c: char) {
    c != '=' && c != '-' && c != '_' && c != '.'
  }

  lemma FirstSymbols(data: seq<Byte>)
    requires data != []
    ensures var s := Encode(data);
            && |s| >= 4 && Plain(s[0]) && Plain(s[1])
            && (if |data| >= 2 then Plain(s[2]) else s[2] == '=') && (if |data| >= 3 then Plain(s[3]) else s[3] == '=')
            && s[4..] == Encode(Later(data))
  {
    var (a, b, c) := Three(data);
    SymbolBack(a / 4);
    SymbolBack(a % 4 * 16 + b / 16);
    SymbolBack(b % 16 * 4 + c / 64);
    SymbolBack(c % 64);
    hide Symbol, SymbolValue;
  }

  /** Plain symbols, then `k` pads. */
  ghost predicate Shaped(s: string, k: nat) {
    && k <= |s| && (forall i | |s| - k <= i < |s| :: s[i] == '=')
    && (forall i | 0 <= i < |s| - k :: Plain(s[i]))
  }

  lemma ShapeLonger(group: string, s: string, k: nat)
    requires Shaped(s, k) && forall i | 0 <= i < |group| :: Plain(group[i])
    ensures Shaped(group + s, k)
  {
    hide Plain;
  }

  /** The symbols of some data, and behind them the pads. */
  lemma {:induction false} EncodedShape(data: seq<Byte>)
    ensures Shaped(Encode(data), Pads(|data|)) && (data != [] ==> Pads(|data|) < |Encode(data)|)
    decreases |data|
  {
    if data != [] {
      FirstSymbols(data);
      EncodeNothing();
      hide Encode, Plain;
      var s := Encode(data);
      if |data| >= 3 {
        EncodedShape(data[3..]);
        SameGroup(|data|);
        hide Pads;
        ShapeLonger(s[..4], s[4..], Pads(|data|));
        assert s == s[..4] + s[4..];
      } else {
        assert |s| == 4;
      }
    }
  }

  lemma SameGroup(n: nat)
    requires n >= 3
    ensures Pads(n) == Pads(n - 3)
  {}

  lemma EncodeNothing()
    ensures Encode([]) == []
  {}

  // ---- the URL-safe form ----

  function ToUrl(c: char): char {
    if c == '+' then '-' else if c == '/' then '_' else c
  }

  function FromUrl(c: char): char {
    if c == '-' then '+' else if c == '_' then '/' else c
  }

  function Map(s: string, f: char -> char): (t: string)
    ensures |t| == |s| && forall i | 0 <= i < |s| :: t[i] == f(s[i])
  {
    seq(|s|, i requires 0 <= i < |s| => f(s[i]))
  }

  function DropPads(s: string): string {
    if s != [] && s[|s| - 1] == '=' then DropPads(s[..|s| - 1]) else s
  }

  function AddPads(s: string): (t: string)
    ensures |t| % 4 == 0
    decreases (4 - |s| % 4) % 4
  {
    if |s| % 4 == 0 then s else AddPads(s + ['='])
  }

  function UrlEncode(data: seq<Byte>): string {
    DropPads(Map(Encode(data), ToUrl))
  }

  /** The number of pads among the last two characters. */
  function CountPads(s: string): nat {
    (if |s| >= 1 && s[|s| - 1] == '=' then 1 else 0) + (if |s| >= 2 && s[|s| - 2] == '=' then 1 else 0)
  }

  function UrlDecode(text: string): Decoded {
    var input := AddPads(Map(text, FromUrl));
    match DecodeBlock(input)
    case Malformed => Malformed
    case Bytes(out) =>
      DecodedSize(input);
      Bytes(out[..|out| - CountPads(input)])
  }

  lemma {:induction false} DecodedSize(s: string)
    requires |s| % 4 == 0 && DecodeBlock(s).Bytes?
    ensures |DecodeBlock(s).bytes| == |s| / 4 * 3
  {
    hide SymbolValue;
    if s != [] {
      DecodedSize(s[4..]);
    }
  }

  lemma {:induction false} DropPadsIs(body: string, k: nat)
    requires body == [] || body[|body| - 1] != '='
    ensures DropPads(body + seq(k, _ => '=')) == body
  {
    var s := body + seq(k, _ => '=');
    if k == 0 {
      assert s == body;
    } else {
      assert s[..|s| - 1] == body + seq(k - 1, _ => '=');
      DropPadsIs(body, k - 1);
    }
  }

  lemma {:induction false} AddPadsIs(body: string, k: nat)
    requires k < 4 && (|body| + k) % 4 == 0
    ensures AddPads(body) == body + seq(k, _ => '=')
    decreases k
  {
    if k == 0 {
      assert body + seq(0, _ => '=') == body;
    } else {
      AddPadsIs(body + ['='], k - 1);
      assert body + ['='] + seq(k - 1, _ => '=') == body + seq(k, _ => '=');
    }
  }

  /** Stripping and restoring the pads gives the padded form back. */
  lemma PadsRestored(data: seq<Byte>)
    ensures AddPads(Map(UrlEncode(data), FromUrl)) == Encode(data)
    ensures UrlEncode(data) == Map(Encode(data), ToUrl)[..|Encode(data)| - Pads(|data|)]
  {
    EncodedShape(data);
    hide Encode, DropPads, AddPads, Pads;
    var s, k := Encode(data), Pads(|data|);
    var n := |s| - k;
    var t := Map(s, ToUrl);
    assert t == t[..n] + seq(k, _ => '=');
    DropPadsIs(t[..n], k);
    assert Map(t[..n], FromUrl) == s[..n];
    AddPadsIs(s[..n], k);
    assert s == s[..n] + seq(k, _ => '=');
  }

  /** For every string of bytes, decoding undoes encoding. */
  lemma UrlRoundTrip(data: seq<Byte>)
    ensures UrlDecode(UrlEncode(data)) == Bytes(data)
  {
    PadsRestored(data);
    DecodeEncoded(data);
    EncodedShape(data);
    var s, k := Encode(data), Pads(|data|);
    hide Encode, DecodeBlock, AddPads, UrlEncode;
    assert CountPads(s) == k;
    assert (data + Zeros(k))[..|data|] == data;
  }

  /** Encoded bytes contain no delimiter, and only nothing encodes to nothing. */
  lemma UrlAlphabet(data: seq<Byte>)
    ensures forall i | 0 <= i < |UrlEncode(data)| :: UrlEncode(data)[i] != '.' && UrlEncode(data)[i] != '='
    ensures UrlEncode(data) == [] <==> data == []
  {
    PadsRestored(data);
    EncodedShape(data);
    hide Encode, UrlEncode;
  }

  // ---- the text, symbol by symbol (sections 4 and 5 of RFC 4648) ----

  const UPPER: string := "ABCDEFGHIJKLMNOPQRSTUVWXYZ"
  const LOWER: string := "abcdefghijklmnopqrstuvwxyz"
  const ALPHABET: string := UPPER + LOWER + "0123456789+/"
  const URL_ALPHABET: string := UPPER + LOWER + "0123456789-_"

  lemma Letters(v: nat)
    requires v < 64
    ensures |ALPHABET| == |URL_ALPHABET| == 64
    ensures Symbol(v) == ALPHABET[v] && ToUrl(Symbol(v)) == URL_ALPHABET[v]
  {
    if v < 26 {
      UpperLetters(v);
    } else if v < 52 {
      LowerLetters(v - 26);
    }
  }

  lemma UpperLetters(v: nat)
    requires v < 26
    ensures UPPER[v] as int == 'A' as int + v
  {}

  lemma LowerLetters(v: nat)
    requires v < 26
    ensures LOWER[v] as int == 'a' as int + v
  {}

  /** The byte at an index, zero behind the end. */
  function ByteAt(data: seq<Byte>, i: nat): Byte {
    if i < |data| then data[i] else 0
  }

  /** The `k`-th six bits of the data, cut from the group of three bytes they lie in. */
  function SixBits(data: seq<Byte>, k: nat): (v: nat)
    ensures v < 64
  {
    var triple := ByteAt(data, k / 4 * 3) * 65536 + ByteAt(data, k / 4 * 3 + 1) * 256 + ByteAt(data, k / 4 * 3 + 2);
    match k % 4
    case 0 => triple / 262144 % 64
    case 1 => triple / 4096 % 64
    case 2 => triple / 64 % 64
    case _ => triple % 64
  }

  lemma {:induction false} EncodedSymbols(data: seq<Byte>, k: nat)
    requires 3 * k < 4 * |data|
    ensures |ALPHABET| == 64 && k < |Encode(data)| && Encode(data)[k] == ALPHABET[SixBits(data, k)]
    decreases |data|
  {
    if k < 4 {
      FirstSymbolsAre(data, k);
    } else {
      EncodedSymbols(data[3..], k - 4);
      SixBitsLater(data, k);
      hide SixBits, EncodeThree;
      assert Encode(data)[4..] == Encode(data[3..]);
    }
  }

  lemma SixBitsLater(data: seq<Byte>, k: nat)
    requires k >= 4 && |data| >= 3
    ensures SixBits(data[3..], k - 4) == SixBits(data, k)
  {
    assert k / 4 * 3 == (k - 4) / 4 * 3 + 3 && (k - 4) % 4 == k % 4;
    forall i: nat
      ensures ByteAt(data[3..], i) == ByteAt(data, i + 3)
    {}
  }

  lemma FirstSymbolsAre(data: seq<Byte>, k: nat)
    requires k < 4 && 3 * k < 4 * |data|
    ensures |ALPHABET| == 64 && k < |Encode(data)| && Encode(data)[k] == ALPHABET[SixBits(data, k)]
  {
    SixBitsFirst(data, k);
    Letters(SixBits(data, k));
    GroupSymbols(data, k);
    hide Encode, Symbol, ToUrl, SixBits, Sextet;
  }

  /** The six bits behind one of the first four symbols. */
  function Sextet(a: Byte, b: Byte, c: Byte, k: nat): (v: nat)
    ensures v < 64
  {
    if k == 0 then a / 4 else if k == 1 then a % 4 * 16 + b / 16 else if k == 2 then b % 16 * 4 + c / 64 else c % 64
  }

  lemma GroupSymbols(data: seq<Byte>, k: nat)
    requires k < 4 && 3 * k < 4 * |data|
    ensures k < |Encode(data)| && Encode(data)[k] == Symbol(Sextet(ByteAt(data, 0), ByteAt(data, 1), ByteAt(data, 2), k))
  {
    if |data| == 1 {
      OneSymbols(data[0], k);
    } else if |data| == 2 {
      TwoSymbols(data[0], data[1], k);
    } else {
      ThreeSymbols(data[0], data[1], data[2], k);
    }
    hide EncodeOne, EncodeTwo, EncodeThree, Symbol, Sextet;
  }

  lemma OneSymbols(a: Byte, k: nat)
    requires k < 2
    ensures EncodeOne(a)[k] == Symbol(Sextet(a, 0, 0, k))
  {
    hide Symbol;
  }

  lemma TwoSymbols(a: Byte, b: Byte, k: nat)
    requires k < 3
    ensures EncodeTwo(a, b)[k] == Symbol(Sextet(a, b, 0, k))
  {
    hide Symbol;
  }

  lemma ThreeSymbols(a: Byte, b: Byte, c: Byte, k: nat)
    requires k < 4
    ensures EncodeThree(a, b, c)[k] == Symbol(Sextet(a, b, c, k))
  {
    hide Symbol;
  }

  lemma SixBitsFirst(data: seq<Byte>, k: nat)
    requires k < 4
    ensures SixBits(data, k) == Sextet(ByteAt(data, 0), ByteAt(data, 1), ByteAt(data, 2), k)
  {
    Groups(ByteAt(data, 0), ByteAt(data, 1), ByteAt(data, 2));
    hide ByteAt;
  }

  /** The encoded text is as long as the bits need, and its symbols are the six-bit groups in order. */
  lemma UrlSymbols(data: seq<Byte>)
    ensures |UrlEncode(data)| == (4 * |data| + 2) / 3 && |URL_ALPHABET| == 64
    ensures forall k | 0 <= k < |UrlEncode(data)| :: UrlEncode(data)[k] == URL_ALPHABET[SixBits(data, k)]
  {
    PadsRestored(data);
    EncodeLength(data);
    Letters(0);
    hide Encode, UrlEncode, SixBits, ToUrl, Symbol;
    forall k | 0 <= k < |UrlEncode(data)|
      ensures UrlEncode(data)[k] == URL_ALPHABET[SixBits(data, k)]
    {
      EncodedSymbols(data, k);
      Letters(SixBits(data, k));
    }
  }

  lemma {:induction false} EncodeLength(data: seq<Byte>)
    ensures 3 * |Encode(data)| == 4 * (|data| + Pads(|data|))
    decreases |data|
  {
    if |data| >= 3 {
      EncodeLength(data[3..]);
      SameGroup(|data|);
    }
  }

  /** Different bytes have different encodings. */
  lemma UrlInjective(a: seq<Byte>, b: seq<Byte>)
    requires UrlEncode(a) == UrlEncode(b)
    ensures a == b
  {
    UrlRoundTrip(a);
    UrlRoundTrip(b);
  }

  /** Replaces the two symbols that URLs reserve. */
  method MakeUrlSafe(text: string) returns (out: string)
    ensures out == Map(text, ToUrl)
  {
    out := text;
    for i := 0 to |out|
      invariant |out| == |text|
      invariant forall k | 0 <= k < |text| :: out[k] == if k < i then ToUrl(text[k]) else text[k]
    {
      if out[i] == '+' {
        out := out[i := '-'];
      } else if out[i] == '/' {
        out := out[i := '_'];
      }
    }
  }

  /** Restores the two symbols. */
  method MakeStandard(text: string) returns (out: string)
    ensures out == Map(text, FromUrl)
  {
    out := text;
    for i := 0 to |out|
      invariant |out| == |text|
      invariant forall k | 0 <= k < |text| :: out[k] == if k < i then FromUrl(text[k]) else text[k]
    {
      if out[i] == '-' {
        out := out[i := '+'];
      } else if out[i] == '_' {
        out := out[i := '/'];
      }
    }
  }

  method Base64UrlEncode(input: seq<Byte>) returns (out: string)
    ensures out == UrlEncode(input)
  {
    if input == [] {
      assert Map([], ToUrl) == [];
      return "";
    }
    hide Encode, ToUrl, Map;
    out := Base64Encode(input);
    out := MakeUrlSafe(out);
    while out != "" && out[|out| - 1] == '='
      invariant DropPads(out) == UrlEncode(input)
      decreases |out|
    {
      out := out[..|out| - 1];
    }
  }

  method Base64UrlDecode(text: string) returns (r: Decoded)
    ensures r == UrlDecode(text)
  {
    hide FromUrl, Map, DecodeBlock;
    var input := MakeStandard(text);
    ghost var goal := AddPads(input);
    while |input| % 4 != 0
      invariant AddPads(input) == goal
      decreases (4 - |input| % 4) % 4
    {
      input := input + "=";
    }
    assert input == goal;
    hide AddPads;
    var out := DecodeBlock(input);
    if out.Malformed? {
      return Malformed;
    }
    DecodedSize(input);
    var padding := 0;
    if input != "" && input[|input| - 1] == '=' {
      padding := padding + 1;
    }
    if |input| >= 2 && input[|input| - 2] == '=' {
      padding := padding + 1;
    }
    return Bytes(out.bytes[..|out.bytes| - padding]);
  }
}
