/**
  Match entries (MEs), memory descriptors (MDs) and the test of one descriptor against one
  incoming request: lnet_try_match_md of lnet/lnet/lib-ptl.c and the helpers it relies on.
*/
module Matching {
  import opened Machine

  const NID_ANY: int := -1
  const PID_ANY: int := 0xFFFF_FFFF
  /** LNET_MD_THRESH_INF, an unlimited number of operations. */
  const THRESH_INF: int := -1

  datatype Me = Me(matchBits: bv64, ignoreBits: bv64, nid: int, pid: int, unlink: bool)

  datatype Md = Md(id: nat, opPut: bool, opGet: bool, manageRemote: bool, truncate: bool,
                   useMax: bool, maxSize: nat, length: nat, offset: nat, threshold: int, autoUnlink: bool)

  /** lnet_match_info: what the request asks for. */
  datatype Info = Info(mbits: bv64, nid: int, pid: int, put: bool, rlength: nat, roffset: nat)

  predicate Exhausted(md: Md) {
    md.threshold == 0 || (md.useMax && md.offset + md.maxSize > md.length)
  }

  /** The match bits agree where they are not ignored. */
  predicate BitsMatch(bits: bv64, ignore: bv64, mbits: bv64) {
    ((bits ^ mbits) & !ignore) == 0
  }

  /** The request passes every test on operation, match bits, PID and NID. */
  predicate Accepts(me: Me, md: Md, info: Info) {
    && (if info.put then md.opPut else md.opGet)
    && BitsMatch(me.matchBits, me.ignoreBits, info.mbits)
    && (me.pid == PID_ANY || me.pid == info.pid)
    && (me.nid == NID_ANY || me.nid == info.nid)
  }

  datatype Try =
    | Mismatch
    | Spent                                         // NONE | EXHAUSTED
    | TooBig                                        // DROP
    | Match(md: Md, offset: nat, mlength: nat)      // OK, with the descriptor as it is afterwards

  /** lnet_try_match_md. Lengths and offsets are unsigned 32-bit. */
  function TryMatch(me: Me, md: Md, info: Info): Try {
    if Exhausted(md) then Spent
    else if !Accepts(me, md, info) then Mismatch
    else
      var offset := if md.manageRemote then info.roffset else md.offset;
      var room := if md.useMax then md.maxSize else (md.length - offset) % TWO_32;
      if info.rlength > room && !md.truncate then TooBig
      else
        var mlength := if info.rlength <= room then info.rlength else room;
        var threshold := if md.threshold == THRESH_INF then THRESH_INF else md.threshold - 1;
        Match(md.(offset := (offset + mlength) % TWO_32, threshold := threshold), offset, mlength)
  }

  /** A match changes only the offset and the threshold, so it changes no descriptor's criteria. */
  lemma MatchKeepsCriteria(me: Me, md: Md, info: Info, other: Info)
    requires TryMatch(me, md, info).Match?
    ensures TryMatch(me, md, info).md.id == md.id
    ensures Accepts(me, TryMatch(me, md, info).md, other) <==> Accepts(me, md, other)
  {}

  /** Match bits agree exactly if the bits that are not ignored are the same. */
  lemma MatchingBits(bits: bv64, ignore: bv64, mbits: bv64)
    requires BitsMatch(bits, ignore, mbits)
    ensures bits & !ignore == mbits & !ignore
  {
    ZeroXor(bits, mbits, !ignore);
  }

  lemma BitsThatMatch(bits: bv64, ignore: bv64, mbits: bv64)
    requires bits & !ignore == mbits & !ignore
    ensures BitsMatch(bits, ignore, mbits)
  {
    XorOfSame(bits, mbits, !ignore);
  }

  /** An accepted request asks for an operation the descriptor allows, and passes every filter of the entry. */
  lemma AcceptedFits(me: Me, md: Md, info: Info)
    requires Accepts(me, md, info)
    ensures if info.put then md.opPut else md.opGet
    ensures me.matchBits & !me.ignoreBits == info.mbits & !me.ignoreBits
    ensures me.pid in {PID_ANY, info.pid} && me.nid in {NID_ANY, info.nid}
  {
    MatchingBits(me.matchBits, me.ignoreBits, info.mbits);
  }

  /** Every such request is accepted. */
  lemma FittingAccepted(me: Me, md: Md, info: Info)
    requires if info.put then md.opPut else md.opGet
    requires me.matchBits & !me.ignoreBits == info.mbits & !me.ignoreBits
    requires me.pid in {PID_ANY, info.pid} && me.nid in {NID_ANY, info.nid}
    ensures Accepts(me, md, info)
  {
    BitsThatMatch(me.matchBits, me.ignoreBits, info.mbits);
  }

  lemma ZeroXor(a: bv64, b: bv64, mask: bv64)
    requires (a ^ b) & mask == 0
    ensures a & mask == b & mask
  {}

  lemma XorOfSame(a: bv64, b: bv64, mask: bv64)
    requires a & mask == b & mask
    ensures (a ^ b) & mask == 0
  {}

  // ----- the slices a locally managed descriptor hands out

  datatype Slice = Slice(offset: nat, length: nat)

  /** What lnet_md_build leaves behind: the offset is inside the buffer, max_size fits it. */
  predicate WellBuilt(md: Md) {
    && !md.manageRemote
    && md.offset <= md.length < TWO_32
    && (md.useMax ==> md.maxSize <= md.length)
    && (md.threshold == THRESH_INF || md.threshold >= 0)
  }

  /** Offer the requests to the descriptor one after the other. */
  function Feed(me: Me, md: Md, infos: seq<Info>): (r: (Md, seq<Slice>))
    decreases |infos|
  {
    if infos == [] then (md, [])
    else
      match TryMatch(me, md, infos[0])
      case Match(md', offset, mlength) =>
        var (last, slices) := Feed(me, md', infos[1..]);
        (last, [Slice(offset, mlength)] + slices)
      case _ => Feed(me, md, infos[1..])
  }

  /** The slices lie end to end from `from` to `to`. */
  predicate EndToEnd(slices: seq<Slice>, from: nat, to: nat)
    decreases |slices|
  {
    if slices == [] then from == to
    else slices[0].offset == from && EndToEnd(slices[1..], from + slices[0].length, to)
  }

  /** LASSERT(md_offset + mlength <= md_length) holds wherever the code reaches it, and the slice fits. */
  lemma MatchFits(me: Me, md: Md, info: Info)
    requires WellBuilt(md) && !Exhausted(md) && Accepts(me, md, info)
    ensures md.useMax ==> md.offset + md.maxSize <= md.length
    ensures TryMatch(me, md, info).Match? ==>
              var Match(md', offset, mlength) := TryMatch(me, md, info);
              && WellBuilt(md') && md'.length == md.length
              && offset == md.offset && md'.offset == offset + mlength
              && md'.threshold == (if md.threshold == THRESH_INF then THRESH_INF else md.threshold - 1)
  {}

  function Smaller(a: int, b: int): int {
    if a < b then a else b
  }

  /** The most a locally managed descriptor gives to one request, the slice beginning at `offset`. */
  function Most(md: Md, offset: nat): int {
    if md.useMax then md.maxSize else md.length - offset
  }

  /**
    What becomes of a request, for every locally managed descriptor: it is exhausted when its
    operations are used up or max_size does not fit any more; what it accepts and cannot hold is
    refused unless it truncates; everything else gets as much as it asks for, up to the most there is.
  */
  lemma TryExact(me: Me, md: Md, info: Info)
    requires WellBuilt(md)
    ensures var r := TryMatch(me, md, info);
            && (r.Spent? <==> md.threshold == 0 || (md.useMax && md.length - md.offset < md.maxSize))
            && (r.Mismatch? <==> !r.Spent? && !Accepts(me, md, info))
            && (r.TooBig? <==> !r.Spent? && Accepts(me, md, info) && info.rlength > Most(md, md.offset) && !md.truncate)
            && (r.Match? ==>
                  && r.offset == md.offset && r.mlength == Smaller(info.rlength, Most(md, md.offset))
                  && r.md == md.(offset := md.offset + r.mlength,
                                 threshold := if md.threshold == THRESH_INF then THRESH_INF else md.threshold - 1))
  {}

  /** With LNET_MD_MANAGE_REMOTE the sender's offset decides, in 32 bits. */
  lemma RemoteExact(me: Me, md: Md, info: Info)
    requires md.manageRemote && md.length < TWO_32 && info.roffset < TWO_32 && info.rlength < TWO_32
    requires !Exhausted(md) && Accepts(me, md, info)
    ensures var r := TryMatch(me, md, info);
            var left := if info.roffset <= md.length then md.length - info.roffset else md.length - info.roffset + TWO_32;
            var most := if md.useMax then md.maxSize else left;
            && (r.TooBig? <==> info.rlength > most && !md.truncate)
            && (!r.TooBig? ==> r.Match? && r.offset == info.roffset && r.mlength == Smaller(info.rlength, most))
            && (r.Match? && !md.useMax && info.roffset <= md.length ==> r.md.offset == info.roffset + r.mlength <= md.length)
  {}

  /**
    Whatever requests arrive, a locally managed descriptor hands out consecutive slices of its
    buffer, never past its end, and every operation is paid for by its threshold.
  */
  lemma {:induction false} SlicesConsecutive(me: Me, md: Md, infos: seq<Info>)
    requires WellBuilt(md)
    ensures var (last, slices) := Feed(me, md, infos);
            && EndToEnd(slices, md.offset, last.offset)
            && last.offset <= md.length == last.length
            && (md.threshold == THRESH_INF ==> last.threshold == THRESH_INF)
            && (md.threshold != THRESH_INF ==> last.threshold >= 0 && |slices| + last.threshold == md.threshold)
    decreases |infos|
  {
    if infos != [] {
      var attempt := TryMatch(me, md, infos[0]);
      if attempt.Match? {
        MatchFits(me, md, infos[0]);
        SlicesConsecutive(me, attempt.md, infos[1..]);
        var slices := Feed(me, attempt.md, infos[1..]).1;
        assert ([Slice(attempt.offset, attempt.mlength)] + slices)[1..] == slices;
      } else {
        SlicesConsecutive(me, md, infos[1..]);
      }
    }
  }

  /** The slice is what the descriptor owes the request at that offset. */
  ghost predicate Serves(me: Me, md: Md, info: Info, slice: Slice) {
    && Accepts(me, md, info)
    && slice.length == Smaller(info.rlength, Most(md, slice.offset))
    && (info.rlength > Most(md, slice.offset) ==> md.truncate)
  }

  /** The requests at these places got these slices, in this order. */
  ghost predicate Served(me: Me, md: Md, infos: seq<Info>, at: seq<nat>, slices: seq<Slice>) {
    && |at| == |slices|
    && (forall j | 0 <= j < |at| :: at[j] < |infos| && Serves(me, md, infos[at[j]], slices[j]))
    && (forall j, k | 0 <= j < k < |at| :: at[j] < at[k])
  }

  /** The same a request later, for the descriptor as it was before. */
  lemma ServedLater(me: Me, md: Md, infos: seq<Info>, at: seq<nat>, slices: seq<Slice>, md': Md) returns (at': seq<nat>)
    requires infos != [] && Served(me, md', infos[1..], at, slices)
    requires md' == md.(offset := md'.offset, threshold := md'.threshold)
    ensures Served(me, md, infos, at', slices) && forall j | 0 <= j < |at'| :: at'[j] > 0
  {
    at' := seq(|at|, j requires 0 <= j < |at| => at[j] + 1);
    forall j | 0 <= j < |at'|
      ensures at'[j] < |infos| && Serves(me, md, infos[at'[j]], slices[j])
    {
      assert infos[1..][at[j]] == infos[at'[j]];
      assert Serves(me, md', infos[1..][at[j]], slices[j]);
    }
  }

  /** Every slice belongs to a request, in the order of the requests, and is what is owed to it. */
  lemma {:induction false} FeedServes(me: Me, md: Md, infos: seq<Info>) returns (at: seq<nat>)
    requires WellBuilt(md)
    ensures Served(me, md, infos, at, Feed(me, md, infos).1)
    decreases |infos|
  {
    if infos == [] {
      return [];
    }
    var attempt := TryMatch(me, md, infos[0]);
    if attempt.Match? {
      MatchServes(me, md, infos[0]);
    }
    var md' := if attempt.Match? then attempt.md else md;
    var slices := Feed(me, md', infos[1..]).1;
    at := FeedServes(me, md', infos[1..]);
    at := ServedLater(me, md, infos, at, slices, md');
    if attempt.Match? {
      at := FirstServed(me, md, infos, at, slices, Slice(attempt.offset, attempt.mlength));
    }
  }

  lemma MatchServes(me: Me, md: Md, info: Info)
    requires WellBuilt(md) && TryMatch(me, md, info).Match?
    ensures var Match(md', offset, mlength) := TryMatch(me, md, info);
            && Serves(me, md, info, Slice(offset, mlength)) && WellBuilt(md')
            && md' == md.(offset := md'.offset, threshold := md'.threshold)
  {
    TryExact(me, md, info);
  }

  lemma FirstServed(me: Me, md: Md, infos: seq<Info>, at: seq<nat>, slices: seq<Slice>, slice: Slice) returns (at': seq<nat>)
    requires infos != [] && Served(me, md, infos, at, slices) && Serves(me, md, infos[0], slice)
    requires forall j | 0 <= j < |at| :: at[j] > 0
    ensures Served(me, md, infos, at', [slice] + slices)
  {
    at' := [0] + at;
  }

  lemma {:induction false} EndToEndAt(slices: seq<Slice>, from: nat, to: nat, k: nat)
    requires EndToEnd(slices, from, to) && k < |slices|
    ensures from <= slices[k].offset && slices[k].offset + slices[k].length <= to
    decreases |slices|
  {
    if k > 0 {
      EndToEndAt(slices[1..], from + slices[0].length, to, k - 1);
    }
    EndToEndGrows(slices[1..], from + slices[0].length, to);
  }

  lemma {:induction false} EndToEndGrows(slices: seq<Slice>, from: nat, to: nat)
    requires EndToEnd(slices, from, to)
    ensures from <= to
    decreases |slices|
  {
    if slices != [] {
      EndToEndGrows(slices[1..], from + slices[0].length, to);
    }
  }

  lemma {:induction false} EndToEndDisjoint(slices: seq<Slice>, from: nat, to: nat, j: nat, k: nat)
    requires EndToEnd(slices, from, to) && j < k < |slices|
    ensures slices[j].offset + slices[j].length <= slices[k].offset
    decreases |slices|
  {
    if j == 0 {
      EndToEndAt(slices[1..], from + slices[0].length, to, k - 1);
    } else {
      EndToEndDisjoint(slices[1..], from + slices[0].length, to, j - 1, k - 1);
    }
  }

  /** Two different operations never get overlapping bytes, and all bytes are inside the buffer. */
  lemma SlicesDisjoint(me: Me, md: Md, infos: seq<Info>, j: nat, k: nat)
    requires WellBuilt(md) && j < k < |Feed(me, md, infos).1|
    ensures var slices := Feed(me, md, infos).1;
            slices[j].offset + slices[j].length <= slices[k].offset <= slices[k].offset + slices[k].length <= md.length
  {
    SlicesConsecutive(me, md, infos);
    var (last, slices) := Feed(me, md, infos);
    EndToEndDisjoint(slices, md.offset, last.offset, j, k);
    EndToEndAt(slices, md.offset, last.offset, k);
  }
}
