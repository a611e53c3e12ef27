/** Directory contents: inode numbers in ten nonzero bytes each, separated by zero bytes. */
module Directory {
  import opened Prelude
  import opened Layout
  import opened Bitmap

  const NUMBER_LEN: nat := 10

  /** The `k` low bytes of a number, lowest first: u64::to_le_bytes for k = 8. */
  function LeBytes(n: nat, k: nat): (r: seq<byte>)
    ensures |r| == k
  {
    if k == 0 then [] else [n % 256] + LeBytes(n / 256, k - 1)
  }

  function FromLeBytes(s: seq<byte>): nat {
    if s == [] then 0 else s[0] + 256 * FromLeBytes(s[1..])
  }

  function Pow256(k: nat): nat {
    if k == 0 then 1 else 256 * Pow256(k - 1)
  }

  lemma {:induction false} LeBytesRoundTrip(n: nat, k: nat)
    requires n < Pow256(k)
    ensures FromLeBytes(LeBytes(n, k)) == n
  {
    if k == 0 {
    } else {
      LeBytesRoundTrip(n / 256, k - 1);
      assert LeBytes(n, k)[1..] == LeBytes(n / 256, k - 1);
    }
  }

  lemma {:induction false} PowIsPositive256(k: nat)
    ensures Pow256(k) > 0
  {
    if k == 0 {
    } else {
      PowIsPositive256(k - 1);
    }
  }

  /** Byte `i` of a number. */
  function ByteAt(n: nat, i: nat): byte {
    PowIsPositive256(i);
    n / Pow256(i) % 256
  }

  lemma DivIs(n: nat, d: nat, q: nat)
    requires d > 0 && 0 <= n - q * d < d
    ensures n / d == q
  {
    var p := n / d;
    assert p < q ==> (p + 1) * d <= q * d;
    assert p > q ==> (q + 1) * d <= p * d;
  }

  lemma DivTwice(n: nat, b: nat)
    requires b > 0
    ensures n / 256 / b == n / (256 * b)
  {
    var m := n / 256;
    var q := m / b;
    var x := q * b;
    assert m == x + m % b;
    assert 0 <= n - 256 * x < 256 * b;
    assert q * (256 * b) == 256 * x;
    DivIs(n, 256 * b, q);
  }

  lemma {:induction false} LeBytesAt(n: nat, k: nat, i: nat)
    requires i < k
    ensures LeBytes(n, k)[i] == ByteAt(n, i)
  {
    if i == 0 {
    } else {
      LeBytesAt(n / 256, k - 1, i - 1);
      PowIsPositive256(i - 1);
      DivTwice(n, Pow256(i - 1));
    }
  }

  lemma Pow256Of8()
    ensures Pow256(8) == U64_MAX + 1
  {
    assert Pow256(4) == 0x1_0000_0000;
  }

  // ---------------------------------------------------------------------------
  // The flag byte
  // ---------------------------------------------------------------------------

  /** The flag after the first `i` bytes: bit `k` is set when byte `k` is zero. */
  function ZeroFlag(bytes: seq<byte>, i: nat): nat
    requires i <= |bytes|
  {
    if i == 0 then 0 else ZeroFlag(bytes, i - 1) + if bytes[i - 1] == 0 then Pow2(i - 1) else 0
  }

  lemma {:induction false} LowBitsOnly(w: nat, k: nat, q: nat)
    requires w < Pow2(k) && k <= q
    ensures !Bit(w, q)
  {
    if q == 0 {
    } else {
      if k > 0 {
        LowBitsOnly(w / 2, k - 1, q - 1);
      } else {
        LowBitsOnly(0, 0, q - 1);
      }
    }
  }

  lemma {:induction false} ZeroFlagBits(bytes: seq<byte>, i: nat, q: nat)
    requires i <= |bytes|
    ensures ZeroFlag(bytes, i) < Pow2(i)
    ensures Bit(ZeroFlag(bytes, i), q) <==> q < i && bytes[q] == 0
  {
    if i == 0 {
      LowBitsOnly(0, 0, q);
    } else {
      ZeroFlagBits(bytes, i - 1, q);
      ZeroFlagBits(bytes, i - 1, i - 1);
      AddBit(ZeroFlag(bytes, i - 1), i - 1, q);
    }
  }

  // ---------------------------------------------------------------------------
  // inode_number_binary and inode_number_from
  // ---------------------------------------------------------------------------

  /** What `inode_number_binary` returns. */
  function Encode(n: nat): (r: seq<byte>)
    requires n <= U64_MAX
    ensures |r| == NUMBER_LEN
  {
    var bytes := LeBytes(n, 8);
    var flag := ZeroFlag(bytes, 8);
    ZeroFlagBits(bytes, 8, 0);
    assert Pow2(8) == 256;
    seq(8, i requires 0 <= i < 8 => if bytes[i] == 0 then 255 else bytes[i])
    + (if flag == 0 then [255, 20] else [flag, 10])
  }

  /**
   * The ten bytes on disk: the number's eight, with 255 for each zero, then a byte whose bits tell which were zero and the
   * mark 10; 255 and 20 where none was.
   */
  ghost predicate IsEncoding(n: nat, a: seq<byte>) {
    && |a| == 10
    && (forall i :: 0 <= i < 8 ==> a[i] == if ByteAt(n, i) != 0 then ByteAt(n, i) else 255)
    && (if exists i :: 0 <= i < 8 && ByteAt(n, i) == 0 then
          a[9] == 10 && forall i :: 0 <= i < 8 ==> (Bit(a[8], i) <==> ByteAt(n, i) == 0)
        else
          a[8] == 255 && a[9] == 20)
  }

  lemma {:induction false} FlagOfNone(bytes: seq<byte>, i: nat)
    requires i <= |bytes| && forall k :: 0 <= k < i ==> bytes[k] != 0
    ensures ZeroFlag(bytes, i) == 0
  {
    if i == 0 {
    } else {
      FlagOfNone(bytes, i - 1);
    }
  }

  lemma EncodedBytes(n: nat)
    requires n <= U64_MAX
    ensures IsEncoding(n, Encode(n))
  {
    var bytes, a := LeBytes(n, 8), Encode(n);
    var flag := ZeroFlag(bytes, 8);
    forall i | 0 <= i < 8
      ensures bytes[i] == ByteAt(n, i) && (Bit(flag, i) <==> ByteAt(n, i) == 0)
    {
      LeBytesAt(n, 8, i);
      ZeroFlagBits(bytes, 8, i);
    }
    hide ByteAt, LeBytes, ZeroFlag, Bit;
    if i :| 0 <= i < 8 && ByteAt(n, i) == 0 {
      LowBitsOnly(0, 0, i);
      assert flag != 0;
    } else {
      FlagOfNone(bytes, 8);
    }
  }

  /** What `inode_number_from` returns. */
  function Decode(a: seq<byte>): nat
    requires |a| == NUMBER_LEN
  {
    var flag := if a[9] == 20 then 0 else a[8];
    FromLeBytes(seq(8, i requires 0 <= i < 8 => if !Bit(flag, i) then a[i] else 0))
  }

  /** No byte of an encoded number is zero, so zero can separate them. */
  lemma EncodeHasNoZero(n: nat)
    requires n <= U64_MAX
    ensures 0 !in Encode(n)
  {
  }

  /** Decoding inverts encoding for every 64-bit number. */
  lemma DecodeOfEncode(n: nat)
    requires n <= U64_MAX
    ensures Decode(Encode(n)) == n
  {
    var bytes, a := LeBytes(n, 8), Encode(n);
    var flag := if a[9] == 20 then 0 else a[8];
    assert flag == ZeroFlag(bytes, 8);
    forall i | 0 <= i < 8
      ensures Bit(flag, i) <==> bytes[i] == 0
    {
      ZeroFlagBits(bytes, 8, i);
    }
    assert seq(8, i requires 0 <= i < 8 => if !Bit(flag, i) then a[i] else 0) == bytes;
    Pow256Of8();
    LeBytesRoundTrip(n, 8);
  }

  /** inode_number_binary */
  method InodeNumberBinary(n: nat) returns (repre: seq<byte>)
    requires n <= U64_MAX
    ensures repre == Encode(n) && IsEncoding(n, repre)
  {
    EncodedBytes(n);
    hide IsEncoding;
    var bytes := LeBytes(n, 8);
    repre := [];
    var flag, metaFlag := 0, 10;
    for i := 0 to 8
      invariant |repre| == i && flag == ZeroFlag(bytes, i)
      invariant forall k :: 0 <= k < i ==> repre[k] == if bytes[k] == 0 then 255 else bytes[k]
    {
      if bytes[i] == 0 {
        repre := repre + [255];
        flag := flag + Pow2(i);
      } else {
        repre := repre + [bytes[i]];
      }
    }
    ZeroFlagBits(bytes, 8, 0);
    assert Pow2(8) == 256;
    if flag == 0 {
      flag, metaFlag := 255, 20;
    }
    repre := repre + [flag, metaFlag];
  }

  /** Which number ten bytes stand for, whatever they are: a byte counts as zero if its bit is set, unless the mark is 20. */
  ghost predicate IsDecoding(a: seq<byte>, n: nat)
    requires |a| == NUMBER_LEN
  {
    n <= U64_MAX && forall i :: 0 <= i < 8 ==> ByteAt(n, i) == if a[9] != 20 && Bit(a[8], i) then 0 else a[i]
  }

  lemma {:induction false} BytesOfLe(s: seq<byte>, i: nat)
    requires i < |s|
    ensures ByteAt(FromLeBytes(s), i) == s[i]
  {
    var rest := FromLeBytes(s[1..]);
    if i == 0 {
    } else {
      BytesOfLe(s[1..], i - 1);
      PowIsPositive256(i - 1);
      assert (s[0] + 256 * rest) / 256 == rest;
      DivTwice(FromLeBytes(s), Pow256(i - 1));
    }
  }

  lemma {:induction false} LowBytes(bytes: seq<byte>)
    ensures FromLeBytes(bytes) < Pow256(|bytes|)
  {
    if bytes == [] {
    } else {
      LowBytes(bytes[1..]);
    }
  }

  lemma DecodedBytes(a: seq<byte>)
    requires |a| == NUMBER_LEN
    ensures IsDecoding(a, Decode(a))
  {
    var flag := if a[9] == 20 then 0 else a[8];
    var bytes := seq(8, i requires 0 <= i < 8 => if !Bit(flag, i) then a[i] else 0);
    LowBytes(bytes);
    Pow256Of8();
    hide FromLeBytes, Pow256, ByteAt, Bit;
    forall i | 0 <= i < 8
      ensures ByteAt(Decode(a), i) == if a[9] != 20 && Bit(a[8], i) then 0 else a[i]
    {
      BytesOfLe(bytes, i);
      LowBitsOnly(0, 0, i);
    }
  }

  /** inode_number_from */
  method InodeNumberFrom(arr: seq<byte>) returns (n: nat)
    requires |arr| == NUMBER_LEN
    ensures n == Decode(arr) && IsDecoding(arr, n)
  {
    DecodedBytes(arr);
    hide IsDecoding;
    var flag := if arr[9] == 20 then 0 else arr[8];
    var bytes: seq<byte> := [];
    for i := 0 to 8
      invariant |bytes| == i
      invariant forall k :: 0 <= k < i ==> bytes[k] == if !Bit(flag, k) then arr[k] else 0
    {
      bytes := bytes + [if !Bit(flag, i) then arr[i] else 0];
    }
    assert bytes == seq(8, i requires 0 <= i < 8 => if !Bit(flag, i) then arr[i] else 0);
    n := FromLeBytes(bytes);
  }

  // ---------------------------------------------------------------------------
  // The listing
  // ---------------------------------------------------------------------------

  /** What `create` makes of a directory's bytes. */
  function Append(bytes: seq<byte>, n: nat): seq<byte>
    requires n <= U64_MAX
  {
    (if bytes == [] then [] else bytes + [0]) + Encode(n)
  }

  /** A directory to which these numbers were appended, in this order. */
  function DirBytes(nums: seq<nat>): seq<byte>
    requires forall k :: 0 <= k < |nums| ==> nums[k] <= U64_MAX
  {
    if nums == [] then [] else Append(DirBytes(nums[..|nums| - 1]), nums[|nums| - 1])
  }

  /** `data.split(|b| *b == 0)` */
  function Split(data: seq<byte>): (r: seq<seq<byte>>)
    ensures |r| > 0
  {
    if data == [] then [[]]
    else
      var rest := Split(data[1..]);
      if data[0] == 0 then [[]] + rest else [[data[0]] + rest[0]] + rest[1..]
  }

  lemma {:induction false} SplitOne(piece: seq<byte>)
    requires 0 !in piece
    ensures Split(piece) == [piece]
  {
    if piece == [] {
    } else {
      assert piece[0] in piece && 0 !in piece[1..];
      SplitOne(piece[1..]);
      assert [piece[0]] + piece[1..] == piece;
    }
  }

  lemma {:induction false} SplitJoin(a: seq<byte>, piece: seq<byte>)
    requires 0 !in piece
    ensures Split(a + [0] + piece) == Split(a) + [piece]
  {
    var whole := a + [0] + piece;
    if a == [] {
      SplitOne(piece);
      assert whole[1..] == piece;
    } else {
      assert whole[1..] == a[1..] + [0] + piece;
      SplitJoin(a[1..], piece);
      var rest := Split(a[1..]);
      assert (rest + [piece])[0] == rest[0] && (rest + [piece])[1..] == rest[1..] + [piece];
    }
  }

  /** The pieces with a zero byte between each two. */
  function JoinZero(pieces: seq<seq<byte>>): seq<byte>
    requires pieces != []
  {
    if |pieces| == 1 then pieces[0] else pieces[0] + [0] + JoinZero(pieces[1..])
  }

  /** Splitting loses nothing, whatever the bytes: the pieces have no zero byte and are the bytes between the zeros. */
  lemma {:induction false} SplitIs(data: seq<byte>)
    ensures JoinZero(Split(data)) == data && forall k :: 0 <= k < |Split(data)| ==> 0 !in Split(data)[k]
  {
    if data == [] {
    } else {
      SplitIs(data[1..]);
      var rest := Split(data[1..]);
      var all := Split(data);
      assert data == [data[0]] + data[1..];
      if data[0] == 0 {
        assert all[1..] == rest;
        assert forall k :: 1 <= k < |all| ==> all[k] == rest[k - 1];
      } else {
        assert all[1..] == rest[1..];
        assert forall k :: 1 <= k < |all| ==> all[k] == rest[k];
      }
    }
  }

  function Encodings(nums: seq<nat>): seq<seq<byte>>
    requires forall k :: 0 <= k < |nums| ==> nums[k] <= U64_MAX
  {
    seq(|nums|, k requires 0 <= k < |nums| => Encode(nums[k]))
  }

  /** Splitting a directory at its zero bytes yields the encodings of its numbers, in order. */
  lemma {:induction false} SplitOfDir(nums: seq<nat>)
    requires nums != [] && forall k :: 0 <= k < |nums| ==> nums[k] <= U64_MAX
    ensures DirBytes(nums) != [] && Split(DirBytes(nums)) == Encodings(nums)
  {
    hide Encode, Split;
    var n := |nums| - 1;
    var front, last := nums[..n], nums[n];
    EncodeHasNoZero(last);
    if front == [] {
      SplitOne(Encode(last));
      assert DirBytes(nums) == Encode(last);
    } else {
      SplitOfDir(front);
      SplitJoin(DirBytes(front), Encode(last));
      assert DirBytes(nums) == DirBytes(front) + [0] + Encode(last);
      assert Encodings(nums) == Encodings(front) + [Encode(last)];
    }
  }

  /** The numbers that `sub_inodes` reads from the pieces; None where a piece is too short and slicing it panics. */
  function NumbersIn(pieces: seq<seq<byte>>): Option<seq<nat>> {
    if pieces == [] then Some([]) else
      var n := |pieces| - 1;
      match NumbersIn(pieces[..n])
      case None => None
      case Some(front) => if |pieces[n]| < NUMBER_LEN then None else Some(front + [Decode(pieces[n][..NUMBER_LEN])])
  }

  /** What `sub_inodes` makes of a directory's bytes, whatever they are. */
  function Parsed(data: seq<byte>): Option<seq<nat>> {
    if data == [] then Some([]) else NumbersIn(Split(data))
  }

  lemma {:induction false} NumbersStop(pieces: seq<seq<byte>>, i: nat)
    requires i <= |pieces| && NumbersIn(pieces[..i]).None?
    ensures NumbersIn(pieces).None?
    decreases |pieces|
  {
    if i == |pieces| {
      assert pieces[..i] == pieces;
    } else {
      var front := pieces[..|pieces| - 1];
      assert front[..i] == pieces[..i];
      NumbersStop(front, i);
    }
  }

  lemma {:induction false} NumbersAre(pieces: seq<seq<byte>>)
    ensures NumbersIn(pieces).Some? <==> forall k :: 0 <= k < |pieces| ==> |pieces[k]| >= 10
    ensures NumbersIn(pieces).Some? ==>
              && |NumbersIn(pieces).value| == |pieces|
              && forall k :: 0 <= k < |pieces| ==> IsDecoding(pieces[k][..10], NumbersIn(pieces).value[k])
    decreases |pieces|
  {
    hide Decode, IsDecoding;
    if pieces == [] {
    } else {
      var n := |pieces| - 1;
      var front := pieces[..n];
      NumbersAre(front);
      assert forall k :: 0 <= k < n ==> front[k] == pieces[k];
      if |pieces[n]| >= 10 {
        DecodedBytes(pieces[n][..10]);
      }
    }
  }

  /**
   * What is read from any bytes: cut at the zeros, each piece must have ten bytes and stands for the number that its first
   * ten encode; no bytes, no number.
   */
  lemma ParsedIs(data: seq<byte>)
    ensures data == [] ==> Parsed(data) == Some([])
    ensures data != [] ==>
              var pieces := Split(data);
              && JoinZero(pieces) == data && (forall k :: 0 <= k < |pieces| ==> 0 !in pieces[k])
              && (Parsed(data).Some? <==> forall k :: 0 <= k < |pieces| ==> |pieces[k]| >= 10)
              && (Parsed(data).Some? ==>
                    && |Parsed(data).value| == |pieces|
                    && forall k :: 0 <= k < |pieces| ==> IsDecoding(pieces[k][..10], Parsed(data).value[k]))
  {
    hide Split, JoinZero, NumbersIn, IsDecoding;
    SplitIs(data);
    NumbersAre(Split(data));
  }

  /** The number-parsing loop of `sub_inodes`. */
  method Listing(data: seq<byte>) returns (r: Option<seq<nat>>)
    ensures r == Parsed(data)
  {
    if data == [] {
      return Some([]);
    }
    var pieces := Split(data);
    var inodes: seq<nat> := [];
    for i := 0 to |pieces|
      invariant NumbersIn(pieces[..i]) == Some(inodes)
    {
      assert pieces[..i + 1][..i] == pieces[..i];
      if |pieces[i]| < NUMBER_LEN {
        NumbersStop(pieces, i + 1);
        return None;
      }
      var n := InodeNumberFrom(pieces[i][..NUMBER_LEN]);
      inodes := inodes + [n];
    }
    assert pieces[..|pieces|] == pieces;
    r := Some(inodes);
  }

  /** Appending a number to a directory appends it to what is read from it, and spoils nothing that was spoilt. */
  lemma ParsedOfAppend(bytes: seq<byte>, n: nat)
    requires n <= U64_MAX
    ensures Parsed(bytes).None? ==> Parsed(Append(bytes, n)).None?
    ensures Parsed(bytes).Some? ==> Parsed(Append(bytes, n)) == Some(Parsed(bytes).value + [n])
  {
    hide Encode, Decode, Split;
    EncodeHasNoZero(n);
    DecodeOfEncode(n);
    var piece := Encode(n);
    assert piece[..NUMBER_LEN] == piece;
    if bytes == [] {
      SplitOne(piece);
      assert [] + piece == piece;
      assert [piece][..0] == [];
      var none: seq<nat> := [];
      assert NumbersIn([piece]) == Some(none + [n]);
    } else {
      SplitJoin(bytes, piece);
      assert Append(bytes, n) == bytes + [0] + piece;
      var pieces := Split(bytes) + [piece];
      assert pieces[..|pieces| - 1] == Split(bytes);
    }
  }

  lemma ParsedOfNone()
    ensures Parsed([]) == Some([])
  {
  }

  /** What is read from a directory to which numbers were appended is these numbers, in order. */
  lemma {:induction false} ParsedOfDir(nums: seq<nat>)
    requires forall k :: 0 <= k < |nums| ==> nums[k] <= U64_MAX
    ensures Parsed(DirBytes(nums)) == Some(nums)
  {
    hide Append, Parsed, Encode;
    if nums == [] {
      ParsedOfNone();
    } else {
      var n := |nums| - 1;
      ParsedOfDir(nums[..n]);
      ParsedOfAppend(DirBytes(nums[..n]), nums[n]);
      assert nums[..n] + [nums[n]] == nums;
    }
  }
}
