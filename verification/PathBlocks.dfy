/** Reversal of a relay path made of fixed-size hash blocks.
  *
  * An advert's path field lists the relays from the origin to us; a direct send
  * needs them nearest first.  Both places that turn a path around are here.
  */
module PathBlocks {
  import opened Common

  /** The blocks of `s`, each `sz` bytes long and there are `cnt` of them, last one first. */
  function ReverseBlocks(s: seq<Byte>, sz: nat, cnt: nat): (r: seq<Byte>)
    requires |s| == cnt * sz
    ensures |r| == |s|
    decreases cnt
  {
    if cnt == 0 then []
    else
      assert |s[sz..]| == (cnt - 1) * sz;
      ReverseBlocks(s[sz..], sz, cnt - 1) + s[..sz]
  }

  lemma SumTimes(i: nat, j: nat, sz: nat)
    ensures (i + j) * sz == i * sz + j * sz && i * sz >= 0 && j * sz >= 0
  {
  }

  lemma OffsetFits(i: nat, cnt: nat, sz: nat, k: nat)
    requires i < cnt && k < sz
    ensures 0 <= i * sz && i * sz + k < cnt * sz
    ensures (i + 1) * sz == i * sz + sz <= cnt * sz
    ensures (cnt - 1 - i) * sz + (i + 1) * sz == cnt * sz
  {
    SumTimes(i, 1, sz);
    SumTimes(cnt - 1 - i, i + 1, sz);
  }

  /** What reversal means byte by byte: block i of the result is block cnt-1-i of the input. */
  lemma {:induction false} ReverseBlocksAt(s: seq<Byte>, sz: nat, cnt: nat, i: nat, k: nat)
    requires |s| == cnt * sz && i < cnt && k < sz
    ensures 0 <= i * sz + k < |s| && 0 <= (cnt - 1 - i) * sz + k < |s|
    ensures ReverseBlocks(s, sz, cnt)[i * sz + k] == s[(cnt - 1 - i) * sz + k]
    decreases cnt
  {
    OffsetFits(i, cnt, sz, k);
    OffsetFits(cnt - 1 - i, cnt, sz, k);
    assert |s[sz..]| == (cnt - 1) * sz;
    var front := ReverseBlocks(s[sz..], sz, cnt - 1);
    if i == cnt - 1 {
      assert i * sz == |front|;
    } else {
      ReverseBlocksAt(s[sz..], sz, cnt - 1, i, k);
      OffsetFits(i, cnt - 1, sz, k);
      assert (cnt - 1 - i) * sz == (cnt - 1 - 1 - i) * sz + sz;
    }
  }

  /** A block put in front of the input comes out at the back, and the other way round. */
  lemma {:induction false} ReverseBlocksSnoc(s: seq<Byte>, b: seq<Byte>, sz: nat, cnt: nat)
    requires |s| == cnt * sz && |b| == sz
    ensures |s + b| == (cnt + 1) * sz
    ensures ReverseBlocks(s + b, sz, cnt + 1) == b + ReverseBlocks(s, sz, cnt)
    decreases cnt
  {
    SumTimes(cnt, 1, sz);
    if cnt == 0 {
      assert s + b == b && b[..sz] == b && b[sz..] == [];
    } else {
      SumTimes(cnt - 1, 1, sz);
      ReverseBlocksSnoc(s[sz..], b, sz, cnt - 1);
      assert (s + b)[sz..] == s[sz..] + b;
      assert (s + b)[..sz] == s[..sz];
    }
  }

  /** Turning a path around twice gives it back. */
  lemma {:induction false} ReverseTwice(s: seq<Byte>, sz: nat, cnt: nat)
    requires |s| == cnt * sz
    ensures ReverseBlocks(ReverseBlocks(s, sz, cnt), sz, cnt) == s
    decreases cnt
  {
    if cnt > 0 {
      assert |s[sz..]| == (cnt - 1) * sz;
      ReverseTwice(s[sz..], sz, cnt - 1);
      ReverseBlocksSnoc(ReverseBlocks(s[sz..], sz, cnt - 1), s[..sz], sz, cnt - 1);
    }
  }

  /** The source and destination offsets of one step of either copy loop. */
  lemma BlockOffsets(i: nat, cnt: nat, sz: nat)
    requires i < cnt
    ensures 0 <= i * sz && 0 <= (cnt - 1 - i) * sz
    ensures (i + 1) * sz == i * sz + sz <= cnt * sz
    ensures (cnt - i) * sz == (cnt - 1 - i) * sz + sz == cnt * sz - i * sz
    ensures (cnt - (i + 1)) * sz == (cnt - 1 - i) * sz
  {
    SumTimes(i, 1, sz);
    SumTimes(cnt - 1 - i, 1, sz);
    SumTimes(cnt - i, i, sz);
  }

  /** `memcpy(dst + dstOff, src + srcOff, n)`. */
  method MemCpy(dst: array<Byte>, dstOff: nat, src: seq<Byte>, srcOff: nat, n: nat)
    requires dstOff + n <= dst.Length && srcOff + n <= |src|
    modifies dst
    ensures dst[..] == old(dst[..dstOff]) + src[srcOff..srcOff + n] + old(dst[dstOff + n..])
  {
    for k := 0 to n
      invariant dst[..dstOff] == old(dst[..dstOff])
      invariant dst[dstOff..dstOff + k] == src[srcOff..srcOff + k]
      invariant dst[dstOff + k..] == old(dst[dstOff + k..])
    {
      dst[dstOff + k] := src[srcOff + k];
    }
  }

  /** One step of the front-to-back loop: the next block goes behind what is there. */
  lemma FrontStep(now: seq<Byte>, was: seq<Byte>, field: seq<Byte>, sz: nat, cnt: nat, i: nat)
    requires i < cnt && |field| == cnt * sz <= |was|
    requires 0 <= i * sz <= cnt * sz && 0 <= (cnt - i) * sz == cnt * sz - i * sz
    requires was[..i * sz] == ReverseBlocks(field[(cnt - i) * sz..], sz, i)
    requires 0 <= (cnt - 1 - i) * sz <= |field| - sz && i * sz + sz <= |was|
    requires now == was[..i * sz] + field[(cnt - 1 - i) * sz..(cnt - 1 - i) * sz + sz] + was[i * sz + sz..]
    ensures 0 <= (i + 1) * sz == i * sz + sz <= cnt * sz
    ensures 0 <= (cnt - (i + 1)) * sz == cnt * sz - (i + 1) * sz
    ensures now[..(i + 1) * sz] == ReverseBlocks(field[(cnt - (i + 1)) * sz..], sz, i + 1)
    ensures now[cnt * sz..] == was[cnt * sz..]
  {
    BlockOffsets(i, cnt, sz);
    var src := (cnt - 1 - i) * sz;
    var f := field[src..];
    assert |f| == (i + 1) * sz;
    assert f[sz..] == field[(cnt - i) * sz..];
    assert f[..sz] == field[src..src + sz];
    assert now[..(i + 1) * sz] == was[..i * sz] + f[..sz];
  }

  /** The first `i` blocks of `now` are the last ones of the path, reversed. */
  ghost predicate FrontDone(now: seq<Byte>, field: seq<Byte>, sz: nat, cnt: nat, i: nat) {
    i <= cnt && |field| == cnt * sz <= |now| && 0 <= i * sz <= cnt * sz &&
    0 <= (cnt - i) * sz == cnt * sz - i * sz && now[..i * sz] == ReverseBlocks(field[(cnt - i) * sz..], sz, i)
  }

  /** One turn of the copy loop of `onAdvertRecv`. */
  method CopyBlock(rev: array<Byte>, path: seq<Byte>, sz: nat, cnt: nat, i: nat, ghost field: seq<Byte>)
    requires i < cnt && cnt * sz <= |path| && field == path[..cnt * sz] && FrontDone(rev[..], field, sz, cnt, i)
    modifies rev
    ensures FrontDone(rev[..], field, sz, cnt, i + 1) && (i + 1) * sz == i * sz + sz
    ensures rev[..][cnt * sz..] == old(rev[..])[cnt * sz..]
  {
    BlockOffsets(i, cnt, sz);
    ghost var was := rev[..];
    var dst, src := i * sz, (cnt - 1 - i) * sz;
    assert 0 <= src && src + sz <= |field| && dst + sz <= |was|;
    assert rev[..dst] == was[..dst] && rev[dst + sz..] == was[dst + sz..];
    assert path[src..src + sz] == field[src..src + sz];
    MemCpy(rev, dst, path, src, sz);
    assert rev[..] == was[..dst] + field[src..src + sz] + was[dst + sz..];
    FrontStep(rev[..], was, field, sz, cnt, i);
  }

  /** The copy loop of `onAdvertRecv`: block cnt-1-i of the packet goes to slot i of
    * `rev`, and the number of bytes written comes back.
    */
  method ReverseInto(rev: array<Byte>, path: seq<Byte>, sz: nat, cnt: nat) returns (revBytes: nat)
    requires cnt * sz <= rev.Length && cnt * sz <= |path|
    modifies rev
    ensures revBytes == cnt * sz
    ensures rev[..revBytes] == ReverseBlocks(path[..cnt * sz], sz, cnt)
    ensures rev[revBytes..] == old(rev[cnt * sz..])
  {
    ghost var field, was := path[..cnt * sz], rev[..];
    revBytes := 0;
    var i := 0;
    while i < cnt
      invariant 0 <= i <= cnt && revBytes == i * sz
      invariant FrontDone(rev[..], field, sz, cnt, i)
      invariant rev[..][cnt * sz..] == was[cnt * sz..]
    {
      CopyBlock(rev, path, sz, cnt, i, field);
      revBytes := revBytes + sz;
      i := i + 1;
    }
    assert field[0..] == field && rev[..][..revBytes] == rev[..revBytes];
    assert rev[..][revBytes..] == rev[revBytes..] && was[revBytes..] == old(rev[cnt * sz..]);
  }

  /** One step of the back-to-front loop: the next block goes before what is there. */
  lemma BackStep(now: seq<Byte>, was: seq<Byte>, field: seq<Byte>, sz: nat, cnt: nat, i: nat)
    requires i < cnt && |field| == |was| == cnt * sz
    requires 0 <= i * sz <= cnt * sz && 0 <= (cnt - i) * sz == cnt * sz - i * sz
    requires was[(cnt - i) * sz..] == ReverseBlocks(field[..i * sz], sz, i)
    requires 0 <= (cnt - 1 - i) * sz <= |was| - sz && i * sz + sz <= |field|
    requires now == was[..(cnt - 1 - i) * sz] + field[i * sz..i * sz + sz] + was[(cnt - 1 - i) * sz + sz..]
    ensures 0 <= (i + 1) * sz == i * sz + sz <= cnt * sz
    ensures 0 <= (cnt - (i + 1)) * sz == cnt * sz - (i + 1) * sz
    ensures now[(cnt - (i + 1)) * sz..] == ReverseBlocks(field[..(i + 1) * sz], sz, i + 1)
  {
    BlockOffsets(i, cnt, sz);
    var src, dst := i * sz, (cnt - 1 - i) * sz;
    ReverseBlocksSnoc(field[..src], field[src..src + sz], sz, i);
    Joined(field, src, sz);
    Placed(now, was, field[src..src + sz], dst);
  }

  lemma Joined(s: seq<Byte>, i: nat, n: nat)
    requires i + n <= |s|
    ensures s[..i] + s[i..i + n] == s[..i + n]
  {
  }

  lemma Placed(now: seq<Byte>, was: seq<Byte>, block: seq<Byte>, i: nat)
    requires i + |block| <= |was| && now == was[..i] + block + was[i + |block|..]
    ensures |now| == |was| && now[i..] == block + was[i + |block|..]
  {
  }

  /** The copy loop of `onPeerDataRecv`: block i of the packet goes to slot cnt-1-i of a
    * contact's path, which is resized to hold exactly the field.
    */
  method ReverseForContact(path: seq<Byte>, sz: nat, cnt: nat) returns (stored: array<Byte>)
    requires cnt * sz <= |path|
    ensures fresh(stored)
    ensures stored[..] == ReverseBlocks(path[..cnt * sz], sz, cnt)
  {
    stored := new Byte[cnt * sz](_ => 0);
    ghost var field := path[..cnt * sz];
    assert field[..0 * sz] == [];
    var i := 0;
    while i < cnt
      invariant 0 <= i <= cnt
      invariant 0 <= i * sz <= cnt * sz && 0 <= (cnt - i) * sz == cnt * sz - i * sz
      invariant stored[(cnt - i) * sz..] == ReverseBlocks(field[..i * sz], sz, i)
    {
      BlockOffsets(i, cnt, sz);
      ghost var was := stored[..];
      MemCpy(stored, (cnt - 1 - i) * sz, path, i * sz, sz);
      BackStep(stored[..], was, field, sz, cnt, i);
      i := i + 1;
    }
    assert field[..cnt * sz] == field;
    assert stored[0..] == stored[..];
  }
}
