/**
 * The hash generator page (app/code/cl-02/page.tsx): digests of the input under four
 * algorithms, each written as lowercase hexadecimal. The digests themselves come from the
 * browser's Web Crypto and are a parameter here: only the encoding and the page's control
 * flow are modelled.
 */
module HashGen {
  import opened Options
  import opened Strings
  import opened Raster
  import opened Seqs

  /** `n.toString(16)` for a single digit. */
  function HexDigit(n: nat): (c: char)
    requires n < 16
    ensures ('0' <= c <= '9') || ('a' <= c <= 'f')
  {
    if n < 10 then ('0' as int + n) as char else ('a' as int + n - 10) as char
  }

  /** The value of a lowercase hexadecimal digit, or -1 for any other character. */
  function HexValue(c: char): (r: int)
    ensures -1 <= r < 16
    ensures r >= 0 ==> HexDigit(r) == c
  {
    if '0' <= c <= '9' then c as int - '0' as int
    else if 'a' <= c <= 'f' then c as int - 'a' as int + 10
    else -1
  }

  lemma HexValueOfDigit(n: nat)
    requires n < 16
    ensures HexValue(HexDigit(n)) == n
  {
  }

  /** `s.padStart(n, c)` for a one-character pad. */
  function PadStart(s: string, n: nat, c: char): (r: string)
    ensures |r| == if |s| < n then n else |s|
    ensures r[|r| - |s|..] == s
    ensures forall i :: 0 <= i < |r| - |s| ==> r[i] == c
  {
    if |s| < n then seq(n - |s|, _ => c) + s else s
  }

  /** `b.toString(16)`: hexadecimal without leading zeros. */
  function ByteToHex(b: byte): (r: string)
    ensures |r| == if b < 16 then 1 else 2
  {
    if b < 16 then [HexDigit(b as nat)] else [HexDigit(b as nat / 16), HexDigit(b as nat % 16)]
  }

  /** The two hexadecimal digits of a byte, high nibble first. */
  function HexByte(b: byte): (r: string)
    ensures |r| == 2
  {
    [HexDigit(b as nat / 16), HexDigit(b as nat % 16)]
  }

  /** `b.toString(16).padStart(2, '0')` is the two-digit form: a byte below 16 gets a
      leading zero and any other byte already has two digits. */
  lemma PaddedIsHexByte(b: byte)
    ensures PadStart(ByteToHex(b), 2, '0') == HexByte(b)
  {
    var p := PadStart(ByteToHex(b), 2, '0');
    if b < 16 {
      assert p[0] == '0' && p[1] == HexDigit(b as nat);
      assert HexDigit(0) == '0';
    } else {
      assert p == ByteToHex(b);
    }
  }

  /** The digest bytes mapped through `HexByte` and joined with no separator. */
  function Hex(bs: seq<byte>): (r: string)
    ensures |r| == 2 * |bs|
  {
    if |bs| == 0 then "" else HexByte(bs[0]) + Hex(bs[1..])
  }

  /** The two characters at positions 2i and 2i+1 of an encoding are the high and low
      nibble of byte i. */
  lemma HexDigits(bs: seq<byte>, i: nat)
    requires i < |bs|
    ensures Hex(bs)[2 * i] == HexDigit(bs[i] as nat / 16)
    ensures Hex(bs)[2 * i + 1] == HexDigit(bs[i] as nat % 16)
  {
    HexPair(bs, i);
  }

  /** Byte i's two digits sit at positions 2i and 2i+1. */
  lemma {:induction false} HexPair(bs: seq<byte>, i: nat)
    requires i < |bs|
    ensures Hex(bs)[2 * i] == HexByte(bs[i])[0] && Hex(bs)[2 * i + 1] == HexByte(bs[i])[1]
  {
    var h := HexByte(bs[0]);
    var t := Hex(bs[1..]);
    assert Hex(bs) == h + t;
    if i > 0 {
      var rest := bs[1..];
      HexPair(rest, i - 1);
      assert rest[i - 1] == bs[i];
      var j := 2 * (i - 1);
      assert (h + t)[j + 2] == t[j];
      assert (h + t)[j + 3] == t[j + 1];
    }
  }

  /** Reads lowercase hex digit pairs back into bytes; `None` for an odd length or a
      character that is not a lowercase hex digit. */
  function FromHex(s: string): (r: Option<seq<byte>>)
    ensures r.Some? ==> 2 * |r.value| == |s|
  {
    if |s| == 0 then Some([])
    else if |s| == 1 then None
    else
      var hi := HexValue(s[0]);
      var lo := HexValue(s[1]);
      if hi < 0 || lo < 0 then None
      else match FromHex(s[2..]) {
        case None => None
        case Some(rest) => Some([(hi * 16 + lo) as byte] + rest)
      }
  }

  /** Decoding an encoding gives the digest back, so the encoding is injective. */
  lemma {:induction false} HexRoundTrip(bs: seq<byte>)
    ensures FromHex(Hex(bs)) == Some(bs)
  {
    if |bs| > 0 {
      var b := bs[0];
      var h := Hex(bs);
      HexRoundTrip(bs[1..]);
      HexValueOfDigit(b as nat / 16);
      HexValueOfDigit(b as nat % 16);
      assert h[2..] == Hex(bs[1..]);
      assert bs == [b] + bs[1..];
    }
  }

  lemma HexInjective(a: seq<byte>, b: seq<byte>)
    requires Hex(a) == Hex(b)
    ensures a == b
  {
    HexRoundTrip(a);
    HexRoundTrip(b);
  }

  /** The four algorithms, in the order the page asks for them. */
  datatype Algorithm = Sha256 | Sha384 | Sha512 | Sha1

  const Algorithms: seq<Algorithm> := [Sha256, Sha384, Sha512, Sha1]

  function AlgorithmName(a: Algorithm): string
  {
    match a
    case Sha256 => "SHA-256"
    case Sha384 => "SHA-384"
    case Sha512 => "SHA-512"
    case Sha1 => "SHA-1"
  }

  const ResultKeys: set<string> := {"SHA-256", "SHA-384", "SHA-512", "SHA-1"}

  /** What `crypto.subtle.digest` gives for one algorithm: the digest bytes, or a thrown
      error with its message. */
  datatype DigestOutcome = Digest(bytes: seq<byte>) | Thrown(message: string)

  /** The page state the handler writes: the hashes shown and the error line. */
  datatype Page = Page(hashes: map<string, string>, error: string)

  const InputRequired := "INPUT REQUIRED"
  const FailurePrefix := "HASH GENERATION FAILED: "

  predicate IsThrown(o: DigestOutcome)
  {
    o.Thrown?
  }

  function Outcomes(digest: Algorithm -> DigestOutcome): seq<DigestOutcome>
  {
    [digest(Sha256), digest(Sha384), digest(Sha512), digest(Sha1)]
  }

  datatype Collection = Collected(hashes: map<string, string>) | Failed(message: string)

  /** The four digests in order, each hex-encoded under its name; the first throw abandons
      the rest. */
  function Digests(digest: Algorithm -> DigestOutcome): (r: Collection)
    ensures r.Failed? <==> exists a :: a in Algorithms && digest(a).Thrown?
    ensures var k := FindIndex(Outcomes(digest), IsThrown);
            r.Failed? ==> k >= 0 && r.message == Outcomes(digest)[k].message
    ensures r.Collected? ==>
              && r.hashes.Keys == ResultKeys
              && forall a :: a in Algorithms ==> r.hashes[AlgorithmName(a)] == Hex(digest(a).bytes)
  {
    match digest(Sha256)
    case Thrown(m) => assert IsThrown(Outcomes(digest)[0]); Failed(m)
    case Digest(h256) =>
      match digest(Sha384)
      case Thrown(m) => assert IsThrown(Outcomes(digest)[1]); Failed(m)
      case Digest(h384) =>
        match digest(Sha512)
        case Thrown(m) => assert IsThrown(Outcomes(digest)[2]); Failed(m)
        case Digest(h512) =>
          match digest(Sha1)
          case Thrown(m) => assert IsThrown(Outcomes(digest)[3]); Failed(m)
          case Digest(h1) =>
            Collected(HashTable(Hex(h256), Hex(h384), Hex(h512), Hex(h1)))
  }

  /** The page's result object: the four encodings under the algorithm names. */
  function HashTable(h256: string, h384: string, h512: string, h1: string): (r: map<string, string>)
    ensures r.Keys == ResultKeys
    ensures && r[AlgorithmName(Sha256)] == h256 && r[AlgorithmName(Sha384)] == h384
            && r[AlgorithmName(Sha512)] == h512 && r[AlgorithmName(Sha1)] == h1
  {
    NamesDistinct();
    map[AlgorithmName(Sha256) := h256, AlgorithmName(Sha384) := h384,
        AlgorithmName(Sha512) := h512, AlgorithmName(Sha1) := h1]
  }

  /** The four algorithm names differ from one another. */
  lemma NamesDistinct()
    ensures forall a, b :: AlgorithmName(a) == AlgorithmName(b) ==> a == b
  {
    assert "SHA-1" != "SHA-256" && "SHA-1" != "SHA-384" && "SHA-1" != "SHA-512" by {
      assert |"SHA-1"| == 5;
    }
    assert "SHA-256"[4] == '2' && "SHA-384"[4] == '3' && "SHA-512"[4] == '5';
  }

  /** `handleGenerate`. The digest of the UTF-8 encoded input under each algorithm is the
      parameter `digest`. */
  function HandleGenerate(input: string, digest: Algorithm -> DigestOutcome): (r: Page)
    ensures IsBlank(input) ==> r == Page(map[], InputRequired)
    ensures !IsBlank(input) && (forall a :: a in Algorithms ==> digest(a).Digest?) ==>
              && r.error == ""
              && r.hashes.Keys == ResultKeys
              && forall a :: a in Algorithms ==> r.hashes[AlgorithmName(a)] == Hex(digest(a).bytes)
    ensures !IsBlank(input) && (exists a :: a in Algorithms && digest(a).Thrown?) ==>
              && r.hashes == map[]
              && |r.error| >= |FailurePrefix| && r.error[..|FailurePrefix|] == FailurePrefix
              && var k := FindIndex(Outcomes(digest), IsThrown);
                 k >= 0 && r.error == FailurePrefix + Outcomes(digest)[k].message
  {
    if IsBlank(input) then Page(map[], InputRequired)
    else
      match Digests(digest) {
        case Collected(h) => Page(h, "")
        case Failed(m) => Page(map[], FailurePrefix + m)
      }
  }
}
