/**
 `DirectIoFile`: positional reads and writes. With direct I/O enabled, every transfer covers whole
 alignment blocks, so an unaligned write reads the blocks around it first and a read past the end
 of the file is filled with zeros. Each call is one step. The system's `read_at` and `write_at` may
 transfer fewer bytes than asked.
 */
module DirectIo {
  import opened Basics

  newtype Byte = x: int | 0 <= x < 256

  datatype Config = Config(enabled: bool, alignment: nat)
  datatype Result<T> = Ok(value: T) | UnexpectedEof

  const DEFAULT_DIRECT_IO_ALIGNMENT: nat := 4096

  /** Any positive amount up to a maximum: how much one system call transfers. */
  method Transfer(max: nat) returns (n: nat)
    requires max > 0
    ensures 1 <= n <= max
  {
    n := max;
    while n > 1
      invariant 1 <= n <= max
    {
      if * {
        break;
      }
      n := n - 1;
    }
  }

  predicate PowerOfTwo(p: nat) {
    p == 1 || (p > 0 && p % 2 == 0 && PowerOfTwo(p / 2))
  }

  /** The least power of two from `p` on that is at least `n`. */
  function PowerFrom(p: nat, n: nat): (r: nat)
    requires p > 0
    ensures n <= r && p <= r && (r == p || r < 2 * n)
    decreases if p < n then n - p else 0
  {
    if n <= p then p else PowerFrom(2 * p, n)
  }

  function EffectiveAlignment(cfg: Config): (a: nat)
    ensures 4096 <= a && cfg.alignment <= a && (a < 2 * 4096 || a < 2 * cfg.alignment)
  {
    PowerFrom(1, MaxNat(cfg.alignment, DEFAULT_DIRECT_IO_ALIGNMENT))
  }

  lemma {:induction false} PowerFromIs(p: nat, n: nat)
    requires p > 0 && PowerOfTwo(p)
    ensures PowerOfTwo(PowerFrom(p, n))
    decreases if p < n then n - p else 0
  {
    if p < n {
      PowerFromIs(2 * p, n);
    }
  }

  /** The alignment is a power of two: with its bounds, the least one from 4096 and the configured value on. */
  lemma AlignmentIsPower(cfg: Config)
    ensures PowerOfTwo(EffectiveAlignment(cfg))
  {
    PowerFromIs(1, MaxNat(cfg.alignment, DEFAULT_DIRECT_IO_ALIGNMENT));
  }

  /** The least multiple of the alignment that is not below `value`. */
  function RoundUp(value: nat, alignment: nat): (r: nat)
    requires alignment > 0
    ensures value <= r < value + alignment && r % alignment == 0
  {
    if value == 0 then 0
    else
      var rem := value % alignment;
      if rem == 0 then value
      else
        NextMultiple(value, alignment);
        value + (alignment - rem)
  }

  lemma NextMultiple(value: nat, alignment: nat)
    requires alignment > 0
    ensures (value + (alignment - value % alignment)) % alignment == 0
  {
    var q := value / alignment;
    assert value + (alignment - value % alignment) == alignment * (q + 1);
    MultipleMod(alignment, q + 1);
  }

  // ----- file contents ---------------------------------------------------------------------------------------

  /** The byte at a position, zero past the end. */
  function ByteAt(file: seq<Byte>, i: nat): Byte {
    if i < |file| then file[i] else 0
  }

  function Slice(file: seq<Byte>, offset: nat, len: nat): (s: seq<Byte>)
    ensures |s| == len && forall i :: 0 <= i < len ==> s[i] == ByteAt(file, offset + i)
  {
    seq(len, i requires 0 <= i => ByteAt(file, offset + i))
  }

  /** The file with `bytes` at `offset` and reaching at least to `end`, zeros in between. */
  function Overlay(file: seq<Byte>, end: nat, offset: nat, bytes: seq<Byte>): (r: seq<Byte>)
    ensures |r| == MaxNat(|file|, end)
    ensures forall i :: 0 <= i < |r| ==>
              r[i] == if offset <= i < offset + |bytes| then bytes[i - offset] else ByteAt(file, i)
  {
    seq(MaxNat(|file|, end), i requires 0 <= i =>
      if offset <= i < offset + |bytes| then bytes[i - offset] else ByteAt(file, i))
  }

  /** What one `pwrite` of a whole buffer does: nothing when the buffer is empty. */
  function Patched(file: seq<Byte>, offset: nat, bytes: seq<Byte>): seq<Byte> {
    if bytes == [] then file else Overlay(file, offset + |bytes|, offset, bytes)
  }

  lemma PatchedTwice(file: seq<Byte>, offset: nat, a: seq<Byte>, b: seq<Byte>)
    ensures Patched(Patched(file, offset, a), offset + |a|, b) == Patched(file, offset, a + b)
  {
    if a == [] {
      assert a + b == b;
    } else if b == [] {
      assert a + b == a;
    }
  }

  /** The greatest multiple of `a` that is not above `n`. */
  function FloorTo(n: nat, a: nat): (r: nat)
    requires a > 0
    ensures r <= n < r + a && r % a == 0
  {
    MultipleMod(a, n / a);
    assert n == n / a * a + n % a;
    n / a * a
  }

  /** Where the first block of a transfer starts. */
  function AlignedOffset(cfg: Config, offset: nat): (aligned: nat)
    ensures aligned <= offset < aligned + EffectiveAlignment(cfg)
  {
    FloorTo(offset, EffectiveAlignment(cfg))
  }

  /** The whole blocks of a transfer. */
  function AlignedLen(cfg: Config, offset: nat, len: nat): (total: nat)
    ensures offset - AlignedOffset(cfg, offset) + len <= total
  {
    RoundUp(offset - AlignedOffset(cfg, offset) + len, EffectiveAlignment(cfg))
  }

  /** How far a write reaches: to the end of its last block with direct I/O. */
  function Reach(cfg: Config, offset: nat, len: nat): nat {
    if cfg.enabled then
      var total := AlignedLen(cfg, offset, len);
      if total == 0 then 0 else AlignedOffset(cfg, offset) + total
    else if len == 0 then 0 else offset + len
  }

  function Written(file: seq<Byte>, cfg: Config, offset: nat, bytes: seq<Byte>): seq<Byte> {
    Overlay(file, Reach(cfg, offset, |bytes|), offset, bytes)
  }

  lemma ReachCovers(cfg: Config, offset: nat, len: nat)
    ensures len > 0 ==> offset + len <= Reach(cfg, offset, len)
  {
  }

  /** With direct I/O a write reaches to the end of the block of its last byte, otherwise to its last byte. */
  lemma ReachIs(cfg: Config, offset: nat, len: nat)
    requires len > 0
    ensures !cfg.enabled ==> Reach(cfg, offset, len) == offset + len
    ensures cfg.enabled ==>
            var r, a := Reach(cfg, offset, len), EffectiveAlignment(cfg);
            offset + len <= r < offset + len + a && r % a == 0
  {
    var a := EffectiveAlignment(cfg);
    hide EffectiveAlignment;
    SumMod(AlignedOffset(cfg, offset), AlignedLen(cfg, offset, len), a);
  }

  lemma SumMod(x: nat, y: nat, a: nat)
    requires a > 0 && x % a == 0 && y % a == 0
    ensures (x + y) % a == 0
  {
    assert x + y == a * (x / a + y / a);
    MultipleMod(a, x / a + y / a);
  }

  /** A write changes its own bytes and no others, with or without direct I/O. */
  lemma OnlyOwnBytes(file: seq<Byte>, cfg: Config, offset: nat, bytes: seq<Byte>, i: nat)
    ensures ByteAt(Written(file, cfg, offset, bytes), i)
            == if offset <= i < offset + |bytes| then bytes[i - offset] else ByteAt(file, i)
  {
    ReachCovers(cfg, offset, |bytes|);
    hide Reach;
  }

  /** Rewriting a block with the bytes around the buffer read back is the same as writing the buffer alone. */
  lemma BlockRewrite(file: seq<Byte>, aligned: nat, prefix: nat, bytes: seq<Byte>, before: seq<Byte>, scratch: seq<Byte>)
    requires prefix + |bytes| <= |before| == |scratch|
    requires before == Slice(file, aligned, |before|) || (prefix == 0 && |before| == |bytes|)
    requires scratch == before[..prefix] + bytes + before[prefix + |bytes|..]
    ensures Patched(file, aligned, scratch)
            == Overlay(file, if |before| == 0 then 0 else aligned + |before|, aligned + prefix, bytes)
  {
    if |before| == 0 {
      assert Overlay(file, 0, aligned + prefix, bytes) == file;
    } else {
      var l, r := Patched(file, aligned, scratch), Overlay(file, aligned + |before|, aligned + prefix, bytes);
      forall i | 0 <= i < |l|
        ensures l[i] == r[i]
      {
        RewriteByte(file, aligned, prefix, bytes, before, scratch, i);
      }
    }
  }

  lemma RewriteByte(file: seq<Byte>, aligned: nat, prefix: nat, bytes: seq<Byte>, before: seq<Byte>, scratch: seq<Byte>, i: nat)
    requires prefix + |bytes| <= |before| == |scratch|
    requires before == Slice(file, aligned, |before|) || (prefix == 0 && |before| == |bytes|)
    requires scratch == before[..prefix] + bytes + before[prefix + |bytes|..]
    ensures (if aligned <= i < aligned + |scratch| then scratch[i - aligned] else ByteAt(file, i))
            == if aligned + prefix <= i < aligned + prefix + |bytes| then bytes[i - (aligned + prefix)] else ByteAt(file, i)
  {
    if aligned <= i < aligned + |scratch| {
      var k := i - aligned;
      if prefix <= k < prefix + |bytes| {
        assert scratch[k] == bytes[k - prefix];
      } else {
        assert scratch[k] == before[k];
        assert before[k] == ByteAt(file, aligned + k);
      }
    }
  }

  // ----- the file ----------------------------------------------------------------------------------------------

  class DirectIoFile {
    const cfg: Config
    var data: seq<Byte>

    constructor (cfg: Config)
      ensures this.cfg == cfg && data == []
    {
      this.cfg := cfg;
      data := [];
    }

    /** `read_at`: some of the bytes asked for, none only at the end of the file. */
    method ReadAt(buf: array<Byte>, from: nat, offset: nat) returns (read: nat)
      requires from < buf.Length
      modifies buf
      ensures from + read <= buf.Length
      ensures read == 0 <==> offset >= |data|
      ensures read > 0 ==> offset + read <= |data|
      ensures forall i :: 0 <= i < buf.Length ==>
                buf[i] == if from <= i < from + read then ByteAt(data, offset + (i - from)) else old(buf[i])
    {
      if offset >= |data| {
        return 0;
      }
      read := Transfer(MinNat(buf.Length - from, |data| - offset));
      for k := 0 to read
        invariant forall i :: 0 <= i < buf.Length ==>
                    buf[i] == if from <= i < from + k then ByteAt(data, offset + (i - from)) else old(buf[i])
      {
        buf[from + k] := data[offset + k];
      }
    }

    /** `read_exact_at_buffered`: fails exactly when the file ends before the buffer is full. */
    method ReadBuffered(buf: array<Byte>, offset: nat) returns (ok: bool)
      modifies buf
      ensures ok <==> buf.Length == 0 || offset + buf.Length <= |data|
      ensures ok ==> buf[..] == Slice(data, offset, buf.Length)
    {
      var filled := 0;
      while filled < buf.Length
        invariant filled <= buf.Length && (filled > 0 ==> offset + filled <= |data|)
        invariant forall i :: 0 <= i < filled ==> buf[i] == ByteAt(data, offset + i)
        decreases buf.Length - filled
      {
        var read := ReadAt(buf, filled, offset + filled);
        if read == 0 {
          return false;
        }
        filled := filled + read;
      }
      ok := true;
    }

    /** `read_exact_at_buffered_partial_ok`: missing bytes become zeros. */
    method ReadZeroFilled(buf: array<Byte>, offset: nat)
      modifies buf
      ensures buf[..] == Slice(data, offset, buf.Length)
    {
      var filled := 0;
      while filled < buf.Length
        invariant filled <= buf.Length
        invariant forall i :: 0 <= i < filled ==> buf[i] == ByteAt(data, offset + i)
        decreases buf.Length - filled
      {
        var read := ReadAt(buf, filled, offset + filled);
        if read == 0 {
          break;
        }
        filled := filled + read;
      }
      for j := filled to buf.Length
        invariant forall i :: 0 <= i < j ==> buf[i] == ByteAt(data, offset + i)
        invariant filled < buf.Length ==> offset + filled >= |data|
      {
        buf[j] := 0;
      }
    }

    /** `read_exact_at`. */
    method ReadExactAt(offset: nat, len: nat) returns (r: Result<seq<Byte>>)
      ensures r.UnexpectedEof? <==> !cfg.enabled && len > 0 && offset + len > |data|
      ensures r.Ok? ==> r.value == Slice(data, offset, len)
    {
      if !cfg.enabled {
        var buf := new Byte[len](_ => 0);
        var ok := ReadBuffered(buf, offset);
        return if ok then Ok(buf[..]) else UnexpectedEof;
      }
      hide AlignedOffset, AlignedLen;
      var aligned := AlignedOffset(cfg, offset);
      var prefix := offset - aligned;
      var scratch := new Byte[AlignedLen(cfg, offset, len)](_ => 0);
      ReadZeroFilled(scratch, aligned);
      var got := scratch[prefix..prefix + len];
      Inside(data, aligned, scratch.Length, prefix, len);
      assert got == scratch[..][prefix..prefix + len];
      r := Ok(got);
    }

    /** `write_all_at_buffered`: writes pieces until the buffer is done. */
    method WriteBuffered(bytes: seq<Byte>, offset: nat)
      modifies this
      ensures data == Patched(old(data), offset, bytes)
    {
      hide Overlay, Patched;
      var done := 0;
      NothingPatched(data, offset);
      while done < |bytes|
        invariant done <= |bytes| && data == Patched(old(data), offset, bytes[..done])
        decreases |bytes| - done
      {
        var written := Transfer(|bytes| - done);
        var piece := bytes[done..done + written];
        PatchedTwice(old(data), offset, bytes[..done], piece);
        assert bytes[..done] + piece == bytes[..done + written];
        data := Patched(data, offset + done, piece);
        done := done + written;
      }
      assert bytes[..done] == bytes;
    }

    /** `write_all_at`. */
    method WriteAllAt(bytes: seq<Byte>, offset: nat)
      modifies this
      ensures data == Written(old(data), cfg, offset, bytes)
    {
      hide *;
      WrittenIs(data, cfg, offset, bytes);
      if !cfg.enabled {
        WriteBuffered(bytes, offset);
        return;
      }
      var aligned := AlignedOffset(cfg, offset);
      var prefix := offset - aligned;
      var total := AlignedLen(cfg, offset, |bytes|);
      var scratch := new Byte[total](_ => 0);
      if prefix != 0 || total != |bytes| {
        ReadZeroFilled(scratch, aligned);
      }
      ghost var before := scratch[..];
      CopyIn(scratch, prefix, bytes);
      BlockRewrite(data, aligned, prefix, bytes, before, scratch[..]);
      WriteBuffered(scratch[..], aligned);
    }
  }

  /** `copy_from_slice` */
  method CopyIn(scratch: array<Byte>, prefix: nat, bytes: seq<Byte>)
    requires prefix + |bytes| <= scratch.Length
    modifies scratch
    ensures scratch[..] == old(scratch[..])[..prefix] + bytes + old(scratch[..])[prefix + |bytes|..]
  {
    for k := 0 to |bytes|
      invariant forall i :: 0 <= i < scratch.Length ==>
                  scratch[i] == if prefix <= i < prefix + k then bytes[i - prefix] else old(scratch[i])
    {
      scratch[prefix + k] := bytes[k];
    }
  }

  lemma NothingPatched(file: seq<Byte>, offset: nat)
    ensures Patched(file, offset, []) == file
  {
  }

  lemma WrittenIs(file: seq<Byte>, cfg: Config, offset: nat, bytes: seq<Byte>)
    ensures !cfg.enabled ==> Written(file, cfg, offset, bytes) == Patched(file, offset, bytes)
    ensures cfg.enabled ==>
              var total := AlignedLen(cfg, offset, |bytes|);
              Written(file, cfg, offset, bytes)
              == Overlay(file, if total == 0 then 0 else AlignedOffset(cfg, offset) + total, offset, bytes)
  {
    hide AlignedLen, AlignedOffset;
    if !cfg.enabled && bytes == [] {
      assert Overlay(file, 0, offset, bytes) == file;
    }
  }

  lemma Inside(file: seq<Byte>, aligned: nat, total: nat, prefix: nat, len: nat)
    requires prefix + len <= total
    ensures Slice(file, aligned, total)[prefix..prefix + len] == Slice(file, aligned + prefix, len)
  {
    var big, small := Slice(file, aligned, total), Slice(file, aligned + prefix, len);
    forall i | 0 <= i < len
      ensures big[prefix + i] == small[i]
    {
      assert aligned + (prefix + i) == aligned + prefix + i;
    }
  }

  // ----- many writes ---------------------------------------------------------------------------------------------

  datatype Write = Write(offset: nat, bytes: seq<Byte>)

  ghost predicate Covers(w: Write, i: nat) {
    w.offset <= i < w.offset + |w.bytes|
  }

  ghost predicate Apart(v: Write, w: Write) {
    v.offset + |v.bytes| <= w.offset || w.offset + |w.bytes| <= v.offset
  }

  ghost predicate PairwiseApart(ws: seq<Write>) {
    forall i, j :: 0 <= i < j < |ws| ==> Apart(ws[i], ws[j])
  }

  ghost function WriteMany(file: seq<Byte>, cfg: Config, ws: seq<Write>): seq<Byte> {
    if ws == [] then file
    else Written(WriteMany(file, cfg, ws[..|ws| - 1]), cfg, ws[|ws| - 1].offset, ws[|ws| - 1].bytes)
  }

  /** A covered byte is the one its write put there. */
  lemma {:induction false} CoveredByte(file: seq<Byte>, cfg: Config, ws: seq<Write>, k: nat, i: nat)
    requires PairwiseApart(ws) && k < |ws| && Covers(ws[k], i)
    ensures ByteAt(WriteMany(file, cfg, ws), i) == ws[k].bytes[i - ws[k].offset]
  {
    var front, last := ws[..|ws| - 1], ws[|ws| - 1];
    OnlyOwnBytes(WriteMany(file, cfg, front), cfg, last.offset, last.bytes, i);
    if k < |front| {
      CoveredByte(file, cfg, front, k, i);
      assert Apart(ws[k], last);
    }
  }

  lemma {:induction false} UncoveredByte(file: seq<Byte>, cfg: Config, ws: seq<Write>, i: nat)
    requires forall k :: 0 <= k < |ws| ==> !Covers(ws[k], i)
    ensures ByteAt(WriteMany(file, cfg, ws), i) == ByteAt(file, i)
  {
    if ws != [] {
      var front, last := ws[..|ws| - 1], ws[|ws| - 1];
      OnlyOwnBytes(WriteMany(file, cfg, front), cfg, last.offset, last.bytes, i);
      UncoveredByte(file, cfg, front, i);
      assert !Covers(ws[|ws| - 1], i);
    }
  }

  /** The file ends at its old end or at the farthest reach. */
  lemma {:induction false} LengthBounds(file: seq<Byte>, cfg: Config, ws: seq<Write>)
    ensures |WriteMany(file, cfg, ws)| >= |file|
    ensures forall w :: w in ws ==> Reach(cfg, w.offset, |w.bytes|) <= |WriteMany(file, cfg, ws)|
    ensures |WriteMany(file, cfg, ws)| == |file|
            || exists w :: w in ws && |WriteMany(file, cfg, ws)| == Reach(cfg, w.offset, |w.bytes|)
  {
    hide Reach, Overlay;
    if ws != [] {
      var front, last := ws[..|ws| - 1], ws[|ws| - 1];
      LengthBounds(file, cfg, front);
      assert ws == front + [last];
      assert last in ws;
      var before, after := |WriteMany(file, cfg, front)|, |WriteMany(file, cfg, ws)|;
      assert after == MaxNat(before, Reach(cfg, last.offset, |last.bytes|));
      if after == before && before != |file| {
        var w :| w in front && before == Reach(cfg, w.offset, |w.bytes|);
        assert w in ws;
      }
    }
  }

  lemma SameLength(file: seq<Byte>, cfg: Config, ws: seq<Write>, vs: seq<Write>)
    requires forall w :: w in ws <==> w in vs
    ensures |WriteMany(file, cfg, ws)| == |WriteMany(file, cfg, vs)|
  {
    hide Reach;
    LengthBounds(file, cfg, ws);
    LengthBounds(file, cfg, vs);
  }

  lemma SameByte(file: seq<Byte>, cfg: Config, ws: seq<Write>, vs: seq<Write>, i: nat)
    requires PairwiseApart(ws) && PairwiseApart(vs) && forall w :: w in ws <==> w in vs
    ensures ByteAt(WriteMany(file, cfg, ws), i) == ByteAt(WriteMany(file, cfg, vs), i)
  {
    hide ByteAt, PairwiseApart, WriteMany;
    if k :| 0 <= k < |ws| && Covers(ws[k], i) {
      assert ws[k] in vs;
      var m :| 0 <= m < |vs| && vs[m] == ws[k];
      CoveredByte(file, cfg, ws, k, i);
      CoveredByte(file, cfg, vs, m, i);
    } else {
      forall m | 0 <= m < |vs|
        ensures !Covers(vs[m], i)
      {
        assert vs[m] in ws;
      }
      UncoveredByte(file, cfg, ws, i);
      UncoveredByte(file, cfg, vs, i);
    }
  }

  /** Disjoint writes in any order leave the same file, length included. */
  lemma AnyOrder(file: seq<Byte>, cfg: Config, ws: seq<Write>, vs: seq<Write>)
    requires PairwiseApart(ws) && PairwiseApart(vs) && multiset(ws) == multiset(vs)
    ensures WriteMany(file, cfg, ws) == WriteMany(file, cfg, vs)
  {
    forall w
      ensures w in ws <==> w in vs
    {
      assert w in multiset(ws) <==> w in multiset(vs);
    }
    hide PairwiseApart, WriteMany;
    SameLength(file, cfg, ws, vs);
    var a, b := WriteMany(file, cfg, ws), WriteMany(file, cfg, vs);
    forall i | 0 <= i < |a|
      ensures a[i] == b[i]
    {
      SameByte(file, cfg, ws, vs, i);
    }
  }

  /** After any number of disjoint writes, each one reads back exactly, in both modes. */
  lemma ReadBack(file: seq<Byte>, cfg: Config, ws: seq<Write>, k: nat)
    requires PairwiseApart(ws) && k < |ws|
    ensures Slice(WriteMany(file, cfg, ws), ws[k].offset, |ws[k].bytes|) == ws[k].bytes
    ensures |ws[k].bytes| > 0 ==> ws[k].offset + |ws[k].bytes| <= |WriteMany(file, cfg, ws)|
  {
    hide PairwiseApart, WriteMany, Reach;
    LengthBounds(file, cfg, ws);
    ReachCovers(cfg, ws[k].offset, |ws[k].bytes|);
    assert ws[k] in ws;
    forall i | 0 <= i < |ws[k].bytes|
      ensures ByteAt(WriteMany(file, cfg, ws), ws[k].offset + i) == ws[k].bytes[i]
    {
      CoveredByte(file, cfg, ws, k, ws[k].offset + i);
    }
  }
}
