/** Base64url without padding (RFC 4648 section 5) on top of base64 (RFC 4648 section 4). The program takes
    the latter from its framework; here it is the one the RFC defines, with malformed text decoded as
    empty. */
module Base64Url {
  import opened Common

  type byte = x: int | 0 <= x < 256

  // ---------- RFC 4648 section 4 ----------

  function CharOf(i: nat): char
    requires i < 64
  {
    if i < 26 then (i + 'A' as int) as char
    else if i < 52 then (i - 26 + 'a' as int) as char
    else if i < 62 then (i - 52 + '0' as int) as char
    else if i == 62 then '+' else '/'
  }

  function SextetOf(c: char): (r: Option<nat>)
    ensures r.Some? ==> r.value < 64
  {
    if 'A' <= c <= 'Z' then Some(c as int - 'A' as int)
    else if 'a' <= c <= 'z' then Some(c as int - 'a' as int + 26)
    else if '0' <= c <= '9' then Some(c as int - '0' as int + 52)
    else if c == '+' then Some(62) else if c == '/' then Some(63) else None
  }

  lemma SextetRoundTrip(i: nat)
    requires i < 64
    ensures SextetOf(CharOf(i)) == Some(i) && CharOf(i) != '='
  {
  }

  function EncodeBlock(x: byte, y: byte, z: byte): (s: string)
    ensures |s| == 4
  {
    [CharOf(x / 4), CharOf(x % 4 * 16 + y / 16), CharOf(y % 16 * 4 + z / 64), CharOf(z % 64)]
  }

  /** One or two bytes left over at the end. */
  function EncodeTail(b: seq<byte>): (s: string)
    requires |b| == 1 || |b| == 2
    ensures |s| == 4
  {
    if |b| == 1 then EncodeBlock(b[0], 0, 0)[..2] + "==" else EncodeBlock(b[0], b[1], 0)[..3] + "="
  }

  function EncodeStd(b: seq<byte>): (s: string)
    ensures |s| % 4 == 0 && (b != [] ==> 4 <= |s|)
  {
    if b == [] then ""
    else if |b| < 3 then EncodeTail(b)
    else EncodeBlock(b[0], b[1], b[2]) + EncodeStd(b[3..])
  }

  function DecodeBlock(s: string): Option<seq<byte>>
    requires |s| == 4
  {
    match (SextetOf(s[0]), SextetOf(s[1]), SextetOf(s[2]), SextetOf(s[3]))
    case (Some(i), Some(j), Some(k), Some(l)) => Some([i * 4 + j / 16, j % 16 * 16 + k / 4, k % 4 * 64 + l])
    case _ => None
  }

  /** The last quartet, which may be padded: the padding stands for zero bits that are dropped again. */
  function DecodeLast(s: string): Option<seq<byte>>
    requires |s| == 4
  {
    if s[3] != '=' then DecodeBlock(s)
    else if s[2] != '=' then
      match DecodeBlock(s[..3] + "A") case Some(b) => Some(b[..2]) case None => None
    else
      match DecodeBlock(s[..2] + "AA") case Some(b) => Some(b[..1]) case None => None
  }

  function DecodeStd(s: string): Option<seq<byte>> {
    if s == "" then Some([])
    else if |s| < 4 then None
    else if |s| == 4 then DecodeLast(s)
    else match (DecodeBlock(s[..4]), DecodeStd(s[4..]))
         case (Some(b), Some(rest)) => Some(b + rest)
         case _ => None
  }

  function Base64Decode(s: string): seq<byte> {
    var r := DecodeStd(s);
    if r.Some? then r.value else []
  }

  // ---------- The URL-safe form ----------

  function UrlChar(c: char): char {
    if c == '+' then '-' else if c == '/' then '_' else c
  }

  function StdChar(c: char): char {
    if c == '-' then '+' else if c == '_' then '/' else c
  }

  function ToUrl(s: string): string {
    seq(|s|, i requires 0 <= i < |s| => UrlChar(s[i]))
  }

  function FromUrl(s: string): string {
    seq(|s|, i requires 0 <= i < |s| => StdChar(s[i]))
  }

  function StripPad(s: string): string {
    if s != "" && s[|s| - 1] == '=' then StripPad(s[..|s| - 1]) else s
  }

  function PadTo4(s: string): string
    decreases (4 - |s| % 4) % 4
  {
    if |s| % 4 == 0 then s else PadTo4(s + "=")
  }

  function EncodeUrl(b: seq<byte>): string {
    StripPad(ToUrl(EncodeStd(b)))
  }

  function DecodeUrl(s: string): seq<byte> {
    Base64Decode(PadTo4(FromUrl(s)))
  }

  method Encode(data: seq<byte>) returns (out: string)
    ensures out == EncodeUrl(data)
  {
    out := EncodeStd(data);
    ghost var std := out;
    for i := 0 to |out|
      invariant |out| == |std|
      invariant forall k | 0 <= k < i :: out[k] == UrlChar(std[k])
      invariant forall k | i <= k < |std| :: out[k] == std[k]
    {
      if out[i] == '+' {
        out := out[i := '-'];
      } else if out[i] == '/' {
        out := out[i := '_'];
      }
    }
    assert out == ToUrl(std);
    while out != "" && out[|out| - 1] == '='
      invariant StripPad(out) == StripPad(ToUrl(std))
      decreases |out|
    {
      out := out[..|out| - 1];
    }
  }

  method Decode(text: string) returns (out: seq<byte>)
    ensures out == DecodeUrl(text)
  {
    var base := text;
    for i := 0 to |base|
      invariant |base| == |text|
      invariant forall k | 0 <= k < i :: base[k] == StdChar(text[k])
      invariant forall k | i <= k < |text| :: base[k] == text[k]
    {
      if base[i] == '-' {
        base := base[i := '+'];
      } else if base[i] == '_' {
        base := base[i := '/'];
      }
    }
    assert base == FromUrl(text);
    while |base| % 4 != 0
      invariant PadTo4(base) == PadTo4(FromUrl(text))
      decreases (4 - |base| % 4) % 4
    {
      base := base + "=";
    }
    out := Base64Decode(base);
  }

  // ---------- Round trip ----------

  predicate StdAlphabet(s: string) {
    forall i | 0 <= i < |s| :: SextetOf(s[i]).Some?
  }

  /** Three bytes split into four sextets and joined again. */
  lemma BytesBack(x: byte, y: byte, z: byte)
    ensures var i, j, k, l := x / 4, x % 4 * 16 + y / 16, y % 16 * 4 + z / 64, z % 64;
            && i < 64 && j < 64 && k < 64 && l < 64
            && i * 4 + j / 16 == x && j % 16 * 16 + k / 4 == y && k % 4 * 64 + l == z
  {
  }

  lemma BlockRoundTrip(x: byte, y: byte, z: byte)
    ensures DecodeBlock(EncodeBlock(x, y, z)) == Some([x, y, z])
    ensures StdAlphabet(EncodeBlock(x, y, z))
  {
    BytesBack(x, y, z);
    SextetRoundTrip(x / 4);
    SextetRoundTrip(x % 4 * 16 + y / 16);
    SextetRoundTrip(y % 16 * 4 + z / 64);
    SextetRoundTrip(z % 64);
  }

  lemma TailRoundTrip(b: seq<byte>)
    requires |b| == 1 || |b| == 2
    ensures DecodeLast(EncodeTail(b)) == Some(b)
  {
    var block := EncodeBlock(b[0], if |b| == 2 then b[1] else 0, 0);
    BlockRoundTrip(b[0], if |b| == 2 then b[1] else 0, 0);
    assert CharOf(0) == 'A';
    if |b| == 2 {
      assert EncodeTail(b)[..3] + "A" == block;
      assert b == [b[0], b[1], 0][..2];
    } else {
      assert EncodeTail(b)[..2] + "AA" == block;
      assert b == [b[0], 0, 0][..1];
    }
  }

  lemma LastQuartet(s: string)
    requires |s| == 4
    ensures DecodeStd(s) == DecodeLast(s)
  {
  }

  lemma {:induction false} StdRoundTrip(b: seq<byte>)
    ensures DecodeStd(EncodeStd(b)) == Some(b)
    decreases |b|
  {
    if 0 < |b| < 3 {
      TailRoundTrip(b);
      LastQuartet(EncodeTail(b));
    } else if |b| >= 3 {
      StdRoundTrip(b[3..]);
      BlockFirst(b[0], b[1], b[2], b[3..]);
      assert b == [b[0], b[1], b[2]] + b[3..];
    }
  }

  lemma BlockFirst(x: byte, y: byte, z: byte, rest: seq<byte>)
    requires DecodeStd(EncodeStd(rest)) == Some(rest)
    ensures DecodeStd(EncodeBlock(x, y, z) + EncodeStd(rest)) == Some([x, y, z] + rest)
  {
    var block, more := EncodeBlock(x, y, z), EncodeStd(rest);
    BlockRoundTrip(x, y, z);
    assert (block + more)[..4] == block && (block + more)[4..] == more;
    if rest == [] {
      assert block + more == block;
      assert SextetOf(block[3]).Some?;
      assert [x, y, z] + rest == [x, y, z];
    }
  }

  function Pads(n: nat): string {
    seq(n, _ => '=')
  }

  /** Standard output is whole quartets: as many alphabet characters as the bits need, then padding. */
  lemma {:induction false} StdShape(b: seq<byte>) returns (body: string, n: nat)
    ensures EncodeStd(b) == body + Pads(n) && StdAlphabet(body)
    ensures |b| * 4 <= |body| * 3 <= |b| * 4 + 2 && n < 3
    decreases |b|
  {
    if b == [] {
      body, n := "", 0;
    } else if |b| < 3 {
      n := 3 - |b|;
      BlockRoundTrip(b[0], if |b| == 2 then b[1] else 0, 0);
      body := EncodeTail(b)[..4 - n];
      assert EncodeTail(b) == body + Pads(n);
    } else {
      var rest;
      rest, n := StdShape(b[3..]);
      body := EncodeBlock(b[0], b[1], b[2]) + rest;
      PrependBlock(b[0], b[1], b[2], rest, n);
    }
  }

  lemma PrependBlock(x: byte, y: byte, z: byte, rest: string, n: nat)
    requires StdAlphabet(rest)
    ensures StdAlphabet(EncodeBlock(x, y, z) + rest)
    ensures EncodeBlock(x, y, z) + rest + Pads(n) == EncodeBlock(x, y, z) + (rest + Pads(n))
  {
    BlockRoundTrip(x, y, z);
  }

  lemma {:induction false} StripExactly(body: string, n: nat)
    requires body == "" || body[|body| - 1] != '='
    ensures StripPad(body + Pads(n)) == body
  {
    if n == 0 {
      assert body + Pads(0) == body;
    } else {
      assert (body + Pads(n))[..|body| + n - 1] == body + Pads(n - 1);
      StripExactly(body, n - 1);
    }
  }

  lemma {:induction false} PadExactly(body: string, n: nat)
    requires (|body| + n) % 4 == 0 && n < 4
    ensures PadTo4(body) == body + Pads(n)
    decreases n
  {
    if n > 0 {
      PadExactly(body + "=", n - 1);
      assert body + "=" + Pads(n - 1) == body + Pads(n);
    } else {
      assert body + Pads(0) == body;
    }
  }

  lemma FromToUrl(s: string)
    requires StdAlphabet(s)
    ensures FromUrl(ToUrl(s)) == s
  {
    assert forall i | 0 <= i < |s| :: SextetOf(s[i]).Some? ==> StdChar(UrlChar(s[i])) == s[i];
  }

  /** Encoding strips exactly the padding of the standard form. */
  lemma EncodeStripsPadding(b: seq<byte>, body: string, n: nat)
    requires EncodeStd(b) == body + Pads(n) && StdAlphabet(body)
    ensures EncodeUrl(b) == ToUrl(body)
  {
    assert ToUrl(body + Pads(n)) == ToUrl(body) + Pads(n);
    if body != "" {
      assert SextetOf(body[|body| - 1]).Some?;
    }
    StripExactly(ToUrl(body), n);
  }

  predicate UrlAlphabet(c: char) {
    'A' <= c <= 'Z' || 'a' <= c <= 'z' || '0' <= c <= '9' || c == '-' || c == '_'
  }

  lemma UrlOfStdAlphabet(s: string)
    requires StdAlphabet(s)
    ensures forall i | 0 <= i < |s| :: UrlAlphabet(ToUrl(s)[i])
  {
    forall i | 0 <= i < |s| ensures UrlAlphabet(UrlChar(s[i])) {
      assert SextetOf(s[i]).Some?;
    }
  }

  /** The output has only URL-safe characters, so no '=' and no '.', and its length is the least that holds
      the bits, never one more than a multiple of four. */
  lemma EncodeUrlShape(b: seq<byte>)
    ensures |EncodeUrl(b)| == (|b| * 4 + 2) / 3 && |EncodeUrl(b)| % 4 != 1
    ensures forall i | 0 <= i < |EncodeUrl(b)| :: UrlAlphabet(EncodeUrl(b)[i])
  {
    var body, n := StdShape(b);
    EncodeStripsPadding(b, body, n);
    UrlOfStdAlphabet(body);
    assert |EncodeStd(b)| == |body| + n;
  }

  /** Re-padding restores exactly the stripped padding. */
  lemma PadRestores(b: seq<byte>)
    ensures PadTo4(FromUrl(EncodeUrl(b))) == EncodeStd(b)
  {
    var body, n := StdShape(b);
    EncodeStripsPadding(b, body, n);
    FromToUrl(body);
    assert |EncodeStd(b)| == |body| + n;
    PadExactly(body, n);
  }

  /** Decoding undoes encoding, for every byte string. */
  lemma RoundTrip(b: seq<byte>)
    ensures DecodeUrl(EncodeUrl(b)) == b
  {
    PadRestores(b);
    StdRoundTrip(b);
  }

  lemma EncodeInjective(a: seq<byte>, b: seq<byte>)
    requires EncodeUrl(a) == EncodeUrl(b)
    ensures a == b
  {
    RoundTrip(a);
    RoundTrip(b);
  }

  // ---------- Every character of the encoding ----------

  predicate Consecutive(s: string, first: char) {
    forall k | 0 <= k < |s| :: s[k] as int == first as int + k
  }

  lemma LetterRuns()
    ensures Consecutive("ABCDEFGHIJKLMNOPQRSTUVWXYZ", 'A')
    ensures Consecutive("abcdefghijklmnopqrstuvwxyz", 'a')
    ensures Consecutive("0123456789", '0')
  {
  }

  /** The alphabet of RFC 4648, table 1. */
  lemma StdLetter(i: nat)
    requires i < 64
    ensures CharOf(i) == ("ABCDEFGHIJKLMNOPQRSTUVWXYZ" + "abcdefghijklmnopqrstuvwxyz" + "0123456789" + "+/")[i]
  {
    LetterRuns();
    var upper, lower, digits := "ABCDEFGHIJKLMNOPQRSTUVWXYZ", "abcdefghijklmnopqrstuvwxyz", "0123456789";
    assert (upper + lower + digits + "+/")[i] as int == CharOf(i) as int;
  }

  /** The alphabet of RFC 4648, table 2. */
  lemma UrlLetter(i: nat)
    requires i < 64
    ensures UrlChar(CharOf(i)) == ("ABCDEFGHIJKLMNOPQRSTUVWXYZ" + "abcdefghijklmnopqrstuvwxyz" + "0123456789" + "-_")[i]
  {
    LetterRuns();
    var upper, lower, digits := "ABCDEFGHIJKLMNOPQRSTUVWXYZ", "abcdefghijklmnopqrstuvwxyz", "0123456789";
    assert (upper + lower + digits + "-_")[i] as int == UrlChar(CharOf(i)) as int;
  }

  function ByteAt(b: seq<byte>, i: nat): byte {
    if i < |b| then b[i] else 0
  }

  /** The g-th 24-bit group, padded with zero bits at the end. */
  function Group(b: seq<byte>, g: nat): nat {
    ByteAt(b, 3 * g) * 65536 + ByteAt(b, 3 * g + 1) * 256 + ByteAt(b, 3 * g + 2)
  }

  /** The j-th of the four sextets of a group, most significant first. */
  function SextetIn(group: nat, j: nat): (s: nat)
    requires j < 4
    ensures s < 64
  {
    match j
    case 0 => group / 262144 % 64
    case 1 => group / 4096 % 64
    case 2 => group / 64 % 64
    case _ => group % 64
  }

  /** Four sextets joined into a group and taken out again. */
  lemma SextetsBack(i: nat, j: nat, k: nat, l: nat)
    requires i < 64 && j < 64 && k < 64 && l < 64
    ensures var g := i * 262144 + j * 4096 + k * 64 + l;
            SextetIn(g, 0) == i && SextetIn(g, 1) == j && SextetIn(g, 2) == k && SextetIn(g, 3) == l
  {
    var g := i * 262144 + j * 4096 + k * 64 + l;
    assert g / 64 == i * 4096 + j * 64 + k;
    assert g / 4096 == i * 64 + j;
    assert g / 262144 == i;
  }

  lemma BlockIsGroup(x: byte, y: byte, z: byte)
    ensures var i, j, k, l := x / 4, x % 4 * 16 + y / 16, y % 16 * 4 + z / 64, z % 64;
            i * 262144 + j * 4096 + k * 64 + l == x * 65536 + y * 256 + z
  {
  }

  lemma BlockAt(x: byte, y: byte, z: byte, j: nat)
    requires j < 4
    ensures EncodeBlock(x, y, z)[j] == CharOf(SextetIn(x * 65536 + y * 256 + z, j))
  {
    BlockIsGroup(x, y, z);
    SextetsBack(x / 4, x % 4 * 16 + y / 16, y % 16 * 4 + z / 64, z % 64);
  }

  function Quartet(b: seq<byte>, g: nat): (s: string)
    ensures |s| == 4
  {
    EncodeBlock(ByteAt(b, 3 * g), ByteAt(b, 3 * g + 1), ByteAt(b, 3 * g + 2))
  }

  lemma FirstQuartet(b: seq<byte>, j: nat)
    requires j * 3 < |b| * 4 && j < 4
    ensures j < |EncodeStd(b)| && EncodeStd(b)[j] == Quartet(b, 0)[j]
  {
    if |b| < 3 {
      assert EncodeStd(b) == EncodeTail(b);
    }
  }

  lemma LaterQuartets(b: seq<byte>, k: nat, g: nat)
    requires 3 <= |b| && k < |EncodeStd(b[3..])|
    ensures k + 4 < |EncodeStd(b)| && EncodeStd(b)[k + 4] == EncodeStd(b[3..])[k]
    ensures Quartet(b[3..], g) == Quartet(b, g + 1)
  {
  }

  /** The j-th character of the g-th quartet. */
  lemma {:induction false} EncodeStdAt(b: seq<byte>, g: nat, j: nat)
    requires j < 4 && (4 * g + j) * 3 < |b| * 4
    ensures 4 * g + j < |EncodeStd(b)| && EncodeStd(b)[4 * g + j] == Quartet(b, g)[j]
    decreases |b|
  {
    if g == 0 {
      FirstQuartet(b, j);
    } else {
      EncodeStdAt(b[3..], g - 1, j);
      LaterQuartets(b, 4 * (g - 1) + j, g - 1);
    }
  }

  lemma QuartetAt(b: seq<byte>, g: nat, j: nat)
    requires j < 4
    ensures Quartet(b, g)[j] == CharOf(SextetIn(Group(b, g), j))
  {
    BlockAt(ByteAt(b, 3 * g), ByteAt(b, 3 * g + 1), ByteAt(b, 3 * g + 2), j);
  }

  /** The URL-safe form keeps every character that is not padding in its place. */
  lemma UrlKeepsPlaces(b: seq<byte>, k: nat)
    requires k < |EncodeUrl(b)|
    ensures k * 3 < |b| * 4 && k < |EncodeStd(b)| && EncodeUrl(b)[k] == UrlChar(EncodeStd(b)[k])
  {
    EncodeUrlShape(b);
    var body, n := StdShape(b);
    EncodeStripsPadding(b, body, n);
  }

  /** RFC 4648 sections 4 and 5, character by character: the j-th character of the g-th quartet is the letter
      of the URL-safe alphabet for the j-th sextet of the g-th group of input bytes. */
  lemma EncodeUrlAt(b: seq<byte>, g: nat, j: nat)
    requires j < 4 && 4 * g + j < |EncodeUrl(b)|
    ensures EncodeUrl(b)[4 * g + j]
         == ("ABCDEFGHIJKLMNOPQRSTUVWXYZ" + "abcdefghijklmnopqrstuvwxyz" + "0123456789" + "-_")[SextetIn(Group(b, g), j)]
  {
    UrlKeepsPlaces(b, 4 * g + j);
    EncodeStdAt(b, g, j);
    QuartetAt(b, g, j);
    UrlLetter(SextetIn(Group(b, g), j));
  }

  /** Vectors of RFC 4648 section 10, and one whose URL-safe form differs from the standard one. */
  lemma Vectors()
    ensures EncodeStd([102]) == "Zg==" && EncodeStd([102, 111]) == "Zm8=" && EncodeStd([102, 111, 111]) == "Zm9v"
    ensures EncodeStd([102, 111, 111, 98, 97, 114]) == "Zm9vYmFy"
    ensures EncodeUrl([251, 255]) == "-_8" && EncodeStd([251, 255]) == "+/8="
  {
    var b: seq<byte> := [102, 111, 111, 98, 97, 114];
    assert b[3..] == [98, 97, 114] && b[3..][3..] == [];
    var c: seq<byte> := [102, 111, 111];
    assert c[3..] == [];
    assert "+/8" + Pads(1) == "+/8=";
    EncodeStripsPadding([251, 255], "+/8", 1);
    assert ToUrl("+/8") == "-_8";
  }
}
