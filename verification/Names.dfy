/** Which keys can be stored as files, and the names of the temporary files they are written through. */
module Names {
  import opened Layout

  type Name = Bytes

  const DOT: byte := 46
  const SLASH: byte := 47
  const ZERO: byte := 48
  const TMP_PREFIX: Name := [46, 116, 109, 112, 46] // ".tmp."
  const NAME_MAX: nat := 255
  const PID_DIGITS: nat := 10

  const MAX_KEY_LEN: nat := NAME_MAX - |TMP_PREFIX| - PID_DIGITS - 1

  predicate Continuation(b: byte) {
    0x80 <= b <= 0xBF
  }

  /** How many bytes the UTF-8 sequence at the front of `s` takes; zero when there is no well-formed one. */
  function Utf8Front(s: Bytes): (n: nat)
    ensures n <= |s| && n <= 4
  {
    if |s| == 0 then 0
    else if s[0] <= 0x7F then 1
    else if |s| >= 2 && 0xC2 <= s[0] <= 0xDF && Continuation(s[1]) then 2
    else if |s| >= 3 && 0xE0 <= s[0] <= 0xEF && Continuation(s[1]) && Continuation(s[2])
            && (s[0] == 0xE0 ==> s[1] >= 0xA0) && (s[0] == 0xED ==> s[1] <= 0x9F) then 3
    else if |s| >= 4 && 0xF0 <= s[0] <= 0xF4 && Continuation(s[1]) && Continuation(s[2]) && Continuation(s[3])
            && (s[0] == 0xF0 ==> s[1] >= 0x90) && (s[0] == 0xF4 ==> s[1] <= 0x8F) then 4
    else 0
  }

  predicate IsUtf8(s: Bytes)
    decreases |s|
  {
    |s| == 0 || (Utf8Front(s) > 0 && IsUtf8(s[Utf8Front(s)..]))
  }

  /** The key can be stored as a file and read back again. */
  predicate ValidKey(key: Key) {
    IsUtf8(key) && 0 < |key| <= MAX_KEY_LEN && key[0] != DOT && SLASH !in key
  }

  function Decimal(n: nat): (s: Bytes)
    ensures |s| > 0
  {
    (if n < 10 then [] else Decimal(n / 10)) + [ZERO + (n % 10) as byte]
  }

  /** The temporary file process `pid` writes `key` through. */
  function TempName(pid: nat, key: Key): Name {
    TMP_PREFIX + Decimal(pid) + [DOT] + key
  }

  /** A name the walk of the store directory hands on: text, and not a dot file. */
  predicate Visible(name: Name) {
    IsUtf8(name) && !(|name| > 0 && name[0] == DOT)
  }

  predicate IsTemp(name: Name) {
    TMP_PREFIX <= name
  }

  // ---------------------------------------------------------- the names --

  function Pow10(d: nat): nat {
    if d == 0 then 1 else 10 * Pow10(d - 1)
  }

  lemma {:induction false} DecimalLength(n: nat, d: nat)
    requires 0 < d && n < Pow10(d)
    ensures |Decimal(n)| <= d
    decreases d
  {
    if n >= 10 {
      DecimalLength(n / 10, d - 1);
    }
  }

  lemma {:induction false} DecimalAtLeast(n: nat, d: nat)
    requires 0 < d && n >= Pow10(d - 1)
    ensures |Decimal(n)| >= d
    decreases d
  {
    if d > 1 {
      DecimalAtLeast(n / 10, d - 1);
    }
  }

  lemma {:induction false} DecimalDigits(n: nat)
    ensures forall b | b in Decimal(n) :: ZERO <= b <= ZERO + 9
  {
    if n >= 10 {
      DecimalDigits(n / 10);
    }
  }

  lemma {:induction false} DecimalInjective(m: nat, n: nat)
    requires Decimal(m) == Decimal(n)
    ensures m == n
  {
    var (a, b) := (Decimal(m), Decimal(n));
    assert a[|a| - 1] == b[|b| - 1];
    assert |a| == 1 <==> m < 10;
    assert |b| == 1 <==> n < 10;
    if m >= 10 && n >= 10 {
      assert a[..|a| - 1] == Decimal(m / 10) && b[..|b| - 1] == Decimal(n / 10);
      DecimalInjective(m / 10, n / 10);
    }
  }

  lemma FirstDot(s: Bytes, a: Bytes, x: Bytes)
    requires DOT !in a && s == a + [DOT] + x
    ensures |a| < |s| && s[|a|] == DOT && s[..|a|] == a && s[|a| + 1..] == x
    ensures forall i | 0 <= i < |a| :: s[i] != DOT
  {
  }

  /** Text up to the first dot, and the text after it, are determined by the whole. */
  lemma SplitAtDot(a: Bytes, x: Bytes, b: Bytes, y: Bytes)
    requires DOT !in a && DOT !in b
    requires a + [DOT] + x == b + [DOT] + y
    ensures a == b && x == y
  {
    var s := a + [DOT] + x;
    FirstDot(s, a, x);
    FirstDot(s, b, y);
  }

  lemma {:induction false} AsciiUtf8(prefix: Bytes, s: Bytes)
    requires forall b | b in prefix :: b <= 0x7F
    requires IsUtf8(s)
    ensures IsUtf8(prefix + s)
    decreases |prefix|
  {
    if |prefix| == 0 {
      assert prefix + s == s;
    } else {
      var t := prefix + s;
      assert prefix[0] in prefix && t[0] == prefix[0];
      assert Utf8Front(t) == 1;
      assert t[1..] == prefix[1..] + s;
      assert forall b | b in prefix[1..] :: b in prefix;
      AsciiUtf8(prefix[1..], s);
    }
  }

  /**
   * For a storable key and a pid of up to ten digits, the temporary name fits in a directory entry, is a name
   * `load_all` can read and will sweep, and is never the name of a key's own file.
   */
  lemma TempNameFits(pid: nat, key: Key)
    requires ValidKey(key) && pid < Pow10(PID_DIGITS)
    ensures |TempName(pid, key)| <= NAME_MAX
    ensures IsTemp(TempName(pid, key)) && IsUtf8(TempName(pid, key)) && SLASH !in TempName(pid, key)
    ensures !ValidKey(TempName(pid, key))
  {
    DecimalLength(pid, PID_DIGITS);
    TempIsText(pid, key);
  }

  lemma TempIsText(pid: nat, key: Key)
    requires ValidKey(key)
    ensures IsTemp(TempName(pid, key)) && IsUtf8(TempName(pid, key)) && SLASH !in TempName(pid, key)
  {
    DecimalDigits(pid);
    AsciiUtf8(TMP_PREFIX + Decimal(pid) + [DOT], key);
  }

  /** MAX_KEY_LEN is the longest a key can be for its temporary name to fit whatever ten-digit pid writes it. */
  lemma MaxKeyLenIsTight(key: Key)
    ensures (forall pid: nat | pid < Pow10(PID_DIGITS) :: |TempName(pid, key)| <= NAME_MAX) <==> |key| <= MAX_KEY_LEN
  {
    forall pid: nat | pid < Pow10(PID_DIGITS)
      ensures |TempName(pid, key)| <= |TMP_PREFIX| + PID_DIGITS + 1 + |key|
    {
      DecimalLength(pid, PID_DIGITS);
    }
    var last := Pow10(PID_DIGITS - 1);
    DecimalAtLeast(last, PID_DIGITS);
    assert last < Pow10(PID_DIGITS);
    assert |TempName(last, key)| >= |TMP_PREFIX| + PID_DIGITS + 1 + |key|;
  }

  /**
   * The keys accepted are exactly those that can be stored and read back: not empty, handed on by the walk of the
   * directory, naming no other directory, and with a temporary name that fits whatever ten-digit pid writes it.
   */
  lemma StorableExactly(key: Key)
    ensures ValidKey(key) <==>
              && key != [] && Visible(key) && SLASH !in key
              && forall pid: nat | pid < Pow10(PID_DIGITS) :: |TempName(pid, key)| <= NAME_MAX
  {
    MaxKeyLenIsTight(key);
  }

  /** So any ASCII text of 1 to 239 bytes is a key, unless it holds a slash or begins with a dot. */
  lemma AsciiIsStorable(key: Key)
    requires forall b | b in key :: b <= 0x7F
    ensures ValidKey(key) <==> 0 < |key| <= 239 && key[0] != 46 && 47 !in key
  {
    AsciiUtf8(key, []);
    assert key + [] == key;
  }

  lemma TempNotKey(pid: nat, key: Key)
    ensures !ValidKey(TempName(pid, key)) && IsTemp(TempName(pid, key))
  {
  }

  /** Two temporary files have the same name only if the same process writes the same key. */
  lemma TempNameInjective(p: nat, k: Key, q: nat, l: Key)
    ensures TempName(p, k) == TempName(q, l) <==> p == q && k == l
  {
    if TempName(p, k) == TempName(q, l) {
      DecimalDigits(p);
      DecimalDigits(q);
      assert TempName(p, k)[|TMP_PREFIX|..] == Decimal(p) + [DOT] + k;
      assert TempName(q, l)[|TMP_PREFIX|..] == Decimal(q) + [DOT] + l;
      SplitAtDot(Decimal(p), k, Decimal(q), l);
      DecimalInjective(p, q);
    }
  }

  // ---------------------------------------------------------------- UTF-8 --

  /** A Unicode scalar value: any code point that is not a surrogate. */
  predicate IsScalar(c: nat) {
    c < 0xD800 || 0xE000 <= c < 0x11_0000
  }

  function Trailing(c: nat): byte {
    (0x80 + c % 64) as byte
  }

  function Encode(c: nat): (s: Bytes)
    requires IsScalar(c)
    ensures 0 < |s| <= 4
  {
    if c < 0x80 then [c as byte]
    else if c < 0x800 then [(0xC0 + c / 64) as byte, Trailing(c)]
    else if c < 0x1_0000 then [(0xE0 + c / 64 / 64) as byte, Trailing(c / 64), Trailing(c)]
    else [(0xF0 + c / 64 / 64 / 64) as byte, Trailing(c / 64 / 64), Trailing(c / 64), Trailing(c)]
  }

  function EncodeAll(cs: seq<nat>): Bytes
    requires forall c | c in cs :: IsScalar(c)
  {
    if |cs| == 0 then [] else Encode(cs[0]) + EncodeAll(cs[1..])
  }

  /** A code point read so far, with the six bits of one more byte. */
  function Append(c: nat, b: byte): (r: nat)
    requires Continuation(b)
    ensures r / 64 == c && Trailing(r) == b && 64 * c <= r < 64 * c + 64
  {
    64 * c + (b as nat - 0x80)
  }

  lemma EncodedIsFront(c: nat, rest: Bytes)
    requires IsScalar(c)
    ensures Utf8Front(Encode(c) + rest) == |Encode(c)|
  {
  }

  lemma TwoAreEncoded(s: Bytes) returns (c: nat)
    requires Utf8Front(s) == 2
    ensures IsScalar(c) && s[..2] == Encode(c)
  {
    c := Append(s[0] as nat - 0xC0, s[1]);
    assert Encode(c)[0] == s[0] && Encode(c)[1] == s[1];
  }

  lemma ThreeAreEncoded(s: Bytes) returns (c: nat)
    requires Utf8Front(s) == 3
    ensures IsScalar(c) && s[..3] == Encode(c)
  {
    var c1 := Append(s[0] as nat - 0xE0, s[1]);
    c := Append(c1, s[2]);
    assert 0x800 <= c < 0x1_0000;
    assert Encode(c)[0] == s[0] && Encode(c)[1] == s[1] && Encode(c)[2] == s[2];
  }

  lemma FourAreEncoded(s: Bytes) returns (c: nat)
    requires Utf8Front(s) == 4
    ensures IsScalar(c) && s[..4] == Encode(c)
  {
    var c1 := Append(s[0] as nat - 0xF0, s[1]);
    var c2 := Append(c1, s[2]);
    c := Append(c2, s[3]);
    assert 0x1_0000 <= c < 0x11_0000;
    assert Encode(c)[0] == s[0] && Encode(c)[1] == s[1] && Encode(c)[2] == s[2] && Encode(c)[3] == s[3];
  }

  /** The well-formed sequence at the front of a text encodes exactly one scalar value. */
  lemma FrontIsEncoded(s: Bytes) returns (c: nat)
    requires Utf8Front(s) > 0
    ensures IsScalar(c) && s[..Utf8Front(s)] == Encode(c)
  {
    var n := Utf8Front(s);
    if n == 1 {
      c := s[0] as nat;
    } else if n == 2 {
      c := TwoAreEncoded(s);
    } else if n == 3 {
      c := ThreeAreEncoded(s);
    } else {
      c := FourAreEncoded(s);
    }
  }

  lemma {:induction false} EncodedIsUtf8(cs: seq<nat>)
    requires forall c | c in cs :: IsScalar(c)
    ensures IsUtf8(EncodeAll(cs))
  {
    if |cs| > 0 {
      var s := EncodeAll(cs);
      EncodedIsFront(cs[0], EncodeAll(cs[1..]));
      assert s[|Encode(cs[0])|..] == EncodeAll(cs[1..]);
      EncodedIsUtf8(cs[1..]);
    }
  }

  /** A text that passes the test is the encoding of some sequence of scalar values; one that fails it is none. */
  lemma {:induction false} Utf8IsEncoded(s: Bytes) returns (cs: seq<nat>)
    requires IsUtf8(s)
    ensures forall c | c in cs :: IsScalar(c)
    ensures EncodeAll(cs) == s
    decreases |s|
  {
    cs := [];
    if |s| > 0 {
      var c := FrontIsEncoded(s);
      var rest := Utf8IsEncoded(s[Utf8Front(s)..]);
      cs := [c] + rest;
      assert cs[1..] == rest;
      assert s == s[..Utf8Front(s)] + s[Utf8Front(s)..];
    }
  }
}
