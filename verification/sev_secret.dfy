/** The SEV secret injected into the guest (src/boot/vm.rs): a 16 KiB
    buffer that starts with a CBOR byte string (RFC 8949). Its length is
    the length of that data item, head included, and is trusted only when
    it fits the buffer. */
module SevSecret {
  import opened Common

  /** 16 KiB. */
  const SEV_SECRET_MAX_SIZE: nat := 16 * 1024

  /** The secret's storage: exactly `SEV_SECRET_MAX_SIZE` bytes. */
  datatype Secret = Secret(data: seq<Byte>)

  predicate ValidSecret(s: Secret)
  {
    |s.data| == SEV_SECRET_MAX_SIZE
  }

  /** The value of a big-endian byte sequence. */
  function BigEndian(b: seq<Byte>): (n: nat)
  {
    if b == [] then 0 else BigEndian(b[..|b| - 1]) * 256 + b[|b| - 1] as nat
  }

  function Pow256(k: nat): (p: nat)
    ensures p >= 1
  {
    if k == 0 then 1 else 256 * Pow256(k - 1)
  }

  /** `k` bytes can hold exactly the values below `256^k`. */
  lemma {:induction false} BigEndianBound(b: seq<Byte>)
    ensures BigEndian(b) < Pow256(|b|)
    decreases |b|
  {
    if b != [] {
      BigEndianBound(b[..|b| - 1]);
    }
  }

  /** Major type (top three bits) and additional information (low five)
      of an initial byte (section 3 of RFC 8949). */
  function MajorType(prefix: Byte): nat { prefix as nat / 32 }
  function AdditionalInfo(prefix: Byte): nat { prefix as nat % 32 }

  /** `cbor_len`: the total size of the byte string that starts the
      buffer, or `None` when it does not start with one of definite
      length. The length is computed over the integers, so the 8-byte
      argument form can exceed `usize`. */
  function CborLen(data: seq<Byte>): (r: Option<nat>)
    requires |data| == SEV_SECRET_MAX_SIZE
    ensures r.Some? <==> MajorType(data[0]) == 2 && AdditionalInfo(data[0]) <= 27
  {
    var prefix := data[0];
    if MajorType(prefix) != 2 then None
    else
      var x := AdditionalInfo(prefix);
      if x <= 23 then Some(1 + x)
      else if x == 24 then Some(1 + 1 + data[1] as nat)
      else if x == 25 then Some(1 + 2 + BigEndian(data[1..3]))
      else if x == 26 then Some(1 + 4 + BigEndian(data[1..5]))
      else if x == 27 then Some(1 + 8 + BigEndian(data[1..9]))
      else assert x <= 31; None   // 28 to 31; the source's arm for 32..=255 is unreachable
  }

  // ---- RFC 8949 reading of a byte-string head ----

  /** Bytes of argument that follow the initial byte (section 3 of RFC 8949). */
  function ArgumentBytes(ai: nat): nat
    requires ai <= 27
  {
    if ai < 24 then 0 else if ai == 24 then 1 else if ai == 25 then 2 else if ai == 26 then 4 else 8
  }

  /** The argument: the additional information itself, or the big-endian
      value of the bytes that follow. */
  function Argument(data: seq<Byte>): nat
    requires |data| >= 9 && AdditionalInfo(data[0]) <= 27
  {
    var ai := AdditionalInfo(data[0]);
    if ai < 24 then ai else BigEndian(data[1..1 + ArgumentBytes(ai)])
  }

  /** A byte string (major type 2, section 3.1) occupies its head plus
      `argument` bytes; additional information 28 to 30 is reserved and 31
      is the indefinite length of section 3.2.1, neither of which has a
      size known from the head. */
  function ByteStringSize(data: seq<Byte>): Option<nat>
    requires |data| >= 9
  {
    if MajorType(data[0]) == 2 && AdditionalInfo(data[0]) <= 27 then
      Some(1 + ArgumentBytes(AdditionalInfo(data[0])) + Argument(data))
    else None
  }

  /** `cbor_len` computes exactly the RFC 8949 size of the leading byte string. */
  lemma CborLenIsByteStringSize(data: seq<Byte>)
    requires |data| == SEV_SECRET_MAX_SIZE
    ensures CborLen(data) == ByteStringSize(data)
  {
    var ai := AdditionalInfo(data[0]);
    if MajorType(data[0]) == 2 && ai == 24 {
      assert data[1..2] == [data[1]];
      assert BigEndian(data[1..2]) == BigEndian([]) * 256 + data[1] as nat;
    }
  }

  /** `k` big-endian bytes of `n`. */
  function ToBigEndian(n: nat, k: nat): (b: seq<Byte>)
    ensures |b| == k
  {
    if k == 0 then [] else ToBigEndian(n / 256, k - 1) + [(n % 256) as Byte]
  }

  lemma {:induction false} BigEndianRoundTrip(n: nat, k: nat)
    requires n < Pow256(k)
    ensures BigEndian(ToBigEndian(n, k)) == n
    decreases k
  {
    if k > 0 {
      var b := ToBigEndian(n, k);
      ToBigEndianStep(n, k);
      DivBound(n, k);
      BigEndianRoundTrip(n / 256, k - 1);
      assert BigEndian(b) == BigEndian(b[..k - 1]) * 256 + b[k - 1] as nat;
    }
  }

  /** One step of the encoding: the leading bytes encode `n / 256`, the
      last is `n % 256`. */
  lemma ToBigEndianStep(n: nat, k: nat)
    requires k > 0
    ensures ToBigEndian(n, k)[..k - 1] == ToBigEndian(n / 256, k - 1)
    ensures ToBigEndian(n, k)[k - 1] as nat == n % 256
  {
    var low := n % 256;
    var byte := low as Byte;
    assert ToBigEndian(n, k) == ToBigEndian(n / 256, k - 1) + [byte];
    assert byte as nat == low;
  }

  /** `n / 256` needs one byte fewer than `n`. */
  lemma DivBound(n: nat, k: nat)
    requires k > 0 && n < Pow256(k)
    ensures n / 256 < Pow256(k - 1)
  {
    var q, r := n / 256, n % 256;
    assert n == 256 * q + r && 0 <= r < 256;
    assert n < 256 * Pow256(k - 1);
  }

  /** The shortest head of a byte string of `n` bytes (section 4.2.1 of
      RFC 8949, preferred serialization). */
  function EncodeHead(n: nat): (h: seq<Byte>)
    requires n < USIZE_LIMIT
    ensures 1 <= |h| <= 9
  {
    if n < 24 then [(0x40 + n) as Byte]
    else if n < 0x100 then [0x58, n as Byte]
    else if n < 0x1_0000 then [0x59] + ToBigEndian(n, 2)
    else if n < 0x1_0000_0000 then [0x5a] + ToBigEndian(n, 4)
    else [0x5b] + ToBigEndian(n, 8)
  }

  /** A buffer that starts with an encoded byte string of `n` bytes has
      `cbor_len` the head plus `n`, whatever follows. */
  lemma CborLenOfEncoded(n: nat, rest: seq<Byte>)
    requires n < USIZE_LIMIT && |EncodeHead(n)| + |rest| == SEV_SECRET_MAX_SIZE
    ensures CborLen(EncodeHead(n) + rest) == Some(|EncodeHead(n)| + n)
  {
    if n < 0x100 {
      CborLenOfShortHead(n, rest);
    } else if n < 0x1_0000 {
      CborLenOfLongHead(n, 2, 0x59, rest);
    } else if n < 0x1_0000_0000 {
      CborLenOfLongHead(n, 4, 0x5a, rest);
    } else {
      Pow256Eight();
      CborLenOfLongHead(n, 8, 0x5b, rest);
    }
  }

  /** The heads with the length in the initial byte or in one more byte. */
  lemma CborLenOfShortHead(n: nat, rest: seq<Byte>)
    requires n < 0x100 && |EncodeHead(n)| + |rest| == SEV_SECRET_MAX_SIZE
    ensures CborLen(EncodeHead(n) + rest) == Some(|EncodeHead(n)| + n)
  {
    var data := EncodeHead(n) + rest;
    if n < 24 {
      assert data[0] as nat == 0x40 + n;
      assert AdditionalInfo(data[0]) == n && MajorType(data[0]) == 2;
    } else {
      assert data[0] == 0x58 && data[1] as nat == n;
    }
  }

  /** The heads with a `k`-byte big-endian length after the initial byte. */
  lemma CborLenOfLongHead(n: nat, k: nat, initial: Byte, rest: seq<Byte>)
    requires (k, initial) in {(2, 0x59 as Byte), (4, 0x5a as Byte), (8, 0x5b as Byte)}
    requires 0x100 <= n < Pow256(k) && n < USIZE_LIMIT
    requires EncodeHead(n) == [initial] + ToBigEndian(n, k)
    requires 1 + k + |rest| == SEV_SECRET_MAX_SIZE
    ensures CborLen(EncodeHead(n) + rest) == Some(1 + k + n)
  {
    var data := EncodeHead(n) + rest;
    assert data[0] == initial;
    assert data[1..1 + k] == ToBigEndian(n, k);
    BigEndianRoundTrip(n, k);
  }

  /** `try_len`: the length, only when it fits the buffer. */
  function TryLen(s: Secret): (r: Option<nat>)
    requires ValidSecret(s)
    ensures r.Some? <==> CborLen(s.data).Some? && CborLen(s.data).value <= SEV_SECRET_MAX_SIZE
    ensures r.Some? ==> r == CborLen(s.data)
  {
    match CborLen(s.data)
    case Some(len) => if len <= SEV_SECRET_MAX_SIZE then Some(len) else None
    case None => None
  }

  /** `try_as_slice`: the first `try_len` bytes of the buffer. */
  function TryAsSlice(s: Secret): (r: Option<seq<Byte>>)
    requires ValidSecret(s)
    ensures r.Some? <==> TryLen(s).Some?
    ensures r.Some? ==> r.value == s.data[..TryLen(s).value]
  {
    match TryLen(s)
    case Some(len) => Some(s.data[..len])
    case None => None
  }

  /** A secret holding one encoded byte string that fits the buffer reads
      back as exactly that data item: head and payload, no padding. */
  lemma TryAsSliceOfEncoded(payload: seq<Byte>, padding: seq<Byte>)
    requires |payload| < SEV_SECRET_MAX_SIZE
    requires |EncodeHead(|payload|)| + |payload| + |padding| == SEV_SECRET_MAX_SIZE
    ensures TryAsSlice(Secret(EncodeHead(|payload|) + payload + padding)) ==
              Some(EncodeHead(|payload|) + payload)
  {
    var h := EncodeHead(|payload|);
    var data := h + payload + padding;
    assert data == h + (payload + padding);
    CborLenOfEncoded(|payload|, payload + padding);
    assert data[..|h| + |payload|] == h + payload;
  }

  // ---- the 8-byte argument in `usize` ----

  /** `cbor_len` as compiled without overflow checks: `1 + 8 + u64` wraps
      modulo 2^64 in the 8-byte argument case. */
  function CborLenWrapping(data: seq<Byte>): (r: Option<nat>)
    requires |data| == SEV_SECRET_MAX_SIZE
    ensures r.Some? ==> r.value < USIZE_LIMIT
  {
    match CborLen(data)
    case Some(len) =>
      BigEndianBound(data[1..9]);
      BigEndianBound(data[1..5]);
      BigEndianBound(data[1..3]);
      Some(len % USIZE_LIMIT)
    case None => None
  }

  /** `try_len` over the wrapping length: the filter is the same, applied
      after the wrap. */
  function TryLenWrapping(s: Secret): (r: Option<nat>)
    requires ValidSecret(s)
    ensures r.Some? <==> CborLenWrapping(s.data).Some? && CborLenWrapping(s.data).value <= SEV_SECRET_MAX_SIZE
    ensures r.Some? ==> r == CborLenWrapping(s.data)
  {
    match CborLenWrapping(s.data)
    case Some(len) => if len <= SEV_SECRET_MAX_SIZE then Some(len) else None
    case None => None
  }

  lemma Pow256Eight()
    ensures Pow256(8) == USIZE_LIMIT && Pow256(4) == 0x1_0000_0000 && Pow256(2) == 0x1_0000
  {
  }

  /** The wrap matters only for an 8-byte argument of at least 2^64 - 9:
      elsewhere the wrapping and the exact lengths agree. */
  lemma WrapOnlyForHugeArgument(s: Secret)
    requires ValidSecret(s)
    ensures TryLenWrapping(s) != TryLen(s) ==>
      AdditionalInfo(s.data[0]) == 27 && BigEndian(s.data[1..9]) >= USIZE_LIMIT - 9
  {
    var data := s.data;
    Pow256Eight();
    BigEndianBound(data[1..9]);
    BigEndianBound(data[1..5]);
    BigEndianBound(data[1..3]);
    var len := CborLen(data);
    if len.Some? && len.value < USIZE_LIMIT {
      assert CborLenWrapping(data) == len;
    }
  }

  /** `k` bytes of 0xff read as the largest `k`-byte number. */
  lemma BigEndianAllOnes(k: nat)
    ensures BigEndian(seq(k, _ => 0xff)) == Pow256(k) - 1
  {
    if k > 0 {
      var b: seq<Byte> := seq(k, _ => 0xff);
      assert b[..k - 1] == seq(k - 1, _ => 0xff);
      BigEndianAllOnes(k - 1);
    }
  }

  /** A head claiming 2^64 - 1 payload bytes: the wrapping length is 8, so
      the wrapping `try_len` accepts a string that cannot fit, and its slice
      would be the head's own first eight bytes; the exact length rejects it. */
  lemma WrappingAcceptsHugeString()
    ensures var s := Secret([0x5b] + seq(8, _ => 0xff) + seq(SEV_SECRET_MAX_SIZE - 9, _ => 0));
      ValidSecret(s) && TryLenWrapping(s) == Some(8) && TryLen(s) == None
  {
    var data: seq<Byte> := [0x5b] + seq(8, _ => 0xff) + seq(SEV_SECRET_MAX_SIZE - 9, _ => 0);
    assert data[1..9] == seq(8, _ => 0xff);
    BigEndianAllOnes(8);
    Pow256Eight();
    assert MajorType(data[0]) == 2 && AdditionalInfo(data[0]) == 27;
    assert CborLen(data) == Some(9 + (USIZE_LIMIT - 1));
  }
}
