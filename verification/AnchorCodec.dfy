/** The opaque sync anchor of `local.rs`: a 16-byte database instance followed by the
    64-bit sequence number it names, little-endian. */
module AnchorCodec {
  import opened Prelude

  const DB_INSTANCE_LEN: nat := 16
  const SEQ_LEN: nat := 8
  const I64_MAX: int := 0x7fff_ffff_ffff_ffff
  const I64_MIN: int := -0x8000_0000_0000_0000
  const TWO_64: int := 0x1_0000_0000_0000_0000

  type I64 = i: int | I64_MIN <= i <= I64_MAX
  type Instance = s: seq<Byte> | |s| == DB_INSTANCE_LEN witness seq(DB_INSTANCE_LEN, _ => 0)

  datatype AnchorError = SyncAnchorExpired

  function Pow256(k: nat): (p: nat)
    ensures p > 0
  {
    if k == 0 then 1 else 256 * Pow256(k - 1)
  }

  function LeBytes(n: nat, k: nat): (b: seq<Byte>)
    ensures |b| == k
  {
    if k == 0 then [] else [n % 256] + LeBytes(n / 256, k - 1)
  }

  function LeValue(b: seq<Byte>): (n: nat) {
    if b == [] then 0 else b[0] + 256 * LeValue(b[1..])
  }

  /** `i64::to_le_bytes`: the two's complement of the sequence, low byte first. */
  function I64ToLe(i: I64): (b: seq<Byte>)
    ensures |b| == SEQ_LEN
  {
    LeBytes(if i < 0 then i + TWO_64 else i, SEQ_LEN)
  }

  lemma {:induction false} LeValueBound(b: seq<Byte>)
    ensures LeValue(b) < Pow256(|b|)
  {
    if b != [] {
      LeValueBound(b[1..]);
    }
  }

  lemma Pow256Of8()
    ensures Pow256(8) == TWO_64
  {
  }

  /** `i64::from_le_bytes`. */
  function I64FromLe(b: seq<Byte>): (i: I64)
    requires |b| == SEQ_LEN
  {
    LeValueBound(b);
    Pow256Of8();
    var n := LeValue(b);
    if n > I64_MAX then n - TWO_64 else n
  }

  lemma {:induction false} LeBytesValue(n: nat, k: nat)
    requires n < Pow256(k)
    ensures LeValue(LeBytes(n, k)) == n
  {
    if k > 0 {
      LeBytesValue(n / 256, k - 1);
      assert LeBytes(n, k)[1..] == LeBytes(n / 256, k - 1);
    }
  }

  lemma {:induction false} LeValueBytes(b: seq<Byte>)
    ensures LeBytes(LeValue(b), |b|) == b
  {
    if b != [] {
      LeValueBytes(b[1..]);
      assert LeValue(b) / 256 == LeValue(b[1..]);
      assert b == [b[0]] + b[1..];
    }
  }

  function EncodeAnchor(instance: Instance, seqNo: I64): (anchor: seq<Byte>)
    ensures |anchor| == DB_INSTANCE_LEN + SEQ_LEN
  {
    instance + I64ToLe(seqNo)
  }

  /** Every way of not being an anchor of this database is answered alike: expired. */
  function DecodeAnchor(anchor: seq<Byte>, instance: Instance): Result<I64, AnchorError> {
    if |anchor| < DB_INSTANCE_LEN then Err(SyncAnchorExpired)
    else if |anchor[DB_INSTANCE_LEN..]| != SEQ_LEN then Err(SyncAnchorExpired)
    else if anchor[..DB_INSTANCE_LEN] != instance then Err(SyncAnchorExpired)
    else Ok(I64FromLe(anchor[DB_INSTANCE_LEN..]))
  }

  /** The codec round-trips every 64-bit sequence, and what it decodes is exactly what it encodes. */
  lemma DecodeInvertsEncode(anchor: seq<Byte>, instance: Instance, seqNo: I64)
    ensures DecodeAnchor(anchor, instance) == Ok(seqNo) <==> anchor == EncodeAnchor(instance, seqNo)
  {
    Pow256Of8();
    if anchor == EncodeAnchor(instance, seqNo) {
      assert anchor[..DB_INSTANCE_LEN] == instance;
      assert anchor[DB_INSTANCE_LEN..] == I64ToLe(seqNo);
      LeBytesValue(if seqNo < 0 then seqNo + TWO_64 else seqNo, SEQ_LEN);
    }
    if DecodeAnchor(anchor, instance) == Ok(seqNo) {
      LeValueBytes(anchor[DB_INSTANCE_LEN..]);
      LeValueBound(anchor[DB_INSTANCE_LEN..]);
      assert anchor == anchor[..DB_INSTANCE_LEN] + anchor[DB_INSTANCE_LEN..];
    }
  }

  /** An anchor is refused exactly when no sequence at all encodes to it under this instance: a
      foreign instance or a wrong length. */
  lemma DecodeRejectsForeign(anchor: seq<Byte>, instance: Instance)
    ensures DecodeAnchor(anchor, instance).Err? <==>
            forall s: I64 :: anchor != EncodeAnchor(instance, s)
  {
    forall s: I64 {
      DecodeInvertsEncode(anchor, instance, s);
    }
    if DecodeAnchor(anchor, instance).Ok? {
      DecodeInvertsEncode(anchor, instance, DecodeAnchor(anchor, instance).value);
    }
  }

  /** Two incarnations of the database never read each other's anchors. */
  lemma WipeExpiresAnchors(before: Instance, after: Instance, seqNo: I64)
    ensures DecodeAnchor(EncodeAnchor(before, seqNo), after).Err? <==> before != after
  {
  }

  /** The sequence itself is not checked: an anchor naming a sequence the counter never reached,
      negative or above it, is honoured although no call ever issued it. */
  lemma DecodeTrustsSequence(instance: Instance, counter: I64)
    requires 0 <= counter < I64_MAX
    ensures DecodeAnchor(EncodeAnchor(instance, counter + 1), instance) == Ok(counter + 1)
    ensures DecodeAnchor(EncodeAnchor(instance, -1), instance) == Ok(-1)
  {
    DecodeInvertsEncode(EncodeAnchor(instance, counter + 1), instance, counter + 1);
    DecodeInvertsEncode(EncodeAnchor(instance, -1), instance, -1);
  }
}
