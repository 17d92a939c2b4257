/**
  lnet_md_build (lnet/lnet/lib-md.c): what a caller's description must satisfy to become a memory
  descriptor, and how a contiguous buffer is cut into pages.
*/
module MdBuild {
  import opened Collections
  import opened Machine
  import opened Matching

  const MAX_IOV: nat := 256
  const TWO_31: nat := 0x8000_0000

  /** A page fragment: bv_offset and bv_len. */
  datatype Frag = Frag(offset: nat, len: nat)

  /** struct lnet_md. With `kiov` the buffer is the list of fragments and `length` counts them. */
  datatype Umd = Umd(start: nat, length: nat, kiov: bool, frags: seq<Frag>, useMax: bool, maxSize: int, threshold: int,
                     opPut: bool, opGet: bool, manageRemote: bool, truncate: bool)

  function Total(frags: seq<Frag>): nat {
    if frags == [] then 0 else Total(frags[..|frags| - 1]) + frags[|frags| - 1].len
  }

  predicate OnePage(f: Frag) {
    f.offset + f.len <= PAGE_SIZE
  }

  predicate OnePageEach(frags: seq<Frag>) {
    forall i | 0 <= i < |frags| :: OnePage(frags[i])
  }

  /** The check of one fragment; the sum has 32 bits. */
  predicate PassesCheck(f: Frag) {
    (f.offset + f.len) % TWO_32 <= PAGE_SIZE
  }

  /** Cast of an unsigned to int. */
  function AsInt(n: nat): int {
    if n % TWO_32 < TWO_31 then n % TWO_32 else n % TWO_32 - TWO_32
  }

  /** lnet_md_validate. */
  predicate Valid(umd: Umd) {
    (umd.start != 0 || umd.length == 0) && (umd.kiov ==> umd.length <= MAX_IOV)
  }

  /** The length of the buffer, in 32 bits; None for a fragment that is refused. */
  function BufferLength(umd: Umd): Option<nat> {
    if !umd.kiov then Some(umd.length)
    else if forall i | 0 <= i < |umd.frags| :: PassesCheck(umd.frags[i]) then Some(Total(umd.frags) % TWO_32)
    else None
  }

  /** lnet_md_build; None is -EINVAL. */
  function Build(umd: Umd, id: nat, auto: bool): Option<Md> {
    var length := BufferLength(umd);
    if !Valid(umd) || length.None? then None
    else if umd.useMax && (umd.maxSize < 0 || umd.maxSize > AsInt(length.value)) then None
    else Some(Md(id, umd.opPut, umd.opGet, umd.manageRemote, umd.truncate, umd.useMax,
                 if umd.maxSize < 0 then 0 else umd.maxSize, length.value, 0, umd.threshold, auto))
  }

  lemma {:induction false} TotalBound(frags: seq<Frag>)
    requires OnePageEach(frags)
    ensures Total(frags) <= |frags| * PAGE_SIZE
  {
    if frags != [] {
      TotalBound(frags[..|frags| - 1]);
      assert OnePage(frags[|frags| - 1]);
    }
  }

  /**
    A descriptor that is built, is managed locally and has a legal threshold starts with an empty
    offset and a max_size that fits its buffer: what matching relies on.
  */
  lemma BuiltWell(umd: Umd, id: nat, auto: bool)
    requires umd.length < TWO_32 && !umd.manageRemote && (umd.threshold == THRESH_INF || umd.threshold >= 0)
    ensures Build(umd, id, auto).Some? ==> WellBuilt(Build(umd, id, auto).value)
  {
  }

  /** The fields of a fragment have 32 bits. */
  predicate Fits(f: Frag) {
    f.offset < TWO_32 && f.len < TWO_32
  }

  /**
    In a descriptor built from fragments each one lies inside a page if and only if no offset and
    length add up to 2^32 or more, and then md_length is what the fragments hold together.
  */
  lemma FragmentsExact(umd: Umd, id: nat, auto: bool)
    requires umd.kiov && umd.length == |umd.frags| && forall i | 0 <= i < |umd.frags| :: Fits(umd.frags[i])
    requires Build(umd, id, auto).Some?
    ensures OnePageEach(umd.frags) <==> forall i | 0 <= i < |umd.frags| :: umd.frags[i].offset + umd.frags[i].len < TWO_32
    ensures OnePageEach(umd.frags) ==> Build(umd, id, auto).value.length == Total(umd.frags)
  {
    forall i | 0 <= i < |umd.frags|
      ensures OnePage(umd.frags[i]) <==> umd.frags[i].offset + umd.frags[i].len < TWO_32
    {
      assert PassesCheck(umd.frags[i]);
    }
    if OnePageEach(umd.frags) {
      TotalBound(umd.frags);
    }
  }

  /** Offset 1 and length 2^32 - 1: the sum is zero in 32 bits, and the fragment passes. */
  lemma SumWraps(id: nat, auto: bool)
    ensures var umd := Umd(1, 1, true, [Frag(1, TWO_32 - 1)], false, 0, 1, true, false, false, false);
            Build(umd, id, auto).Some? && !OnePageEach(umd.frags)
  {
    assert !OnePage([Frag(1, TWO_32 - 1)][0]);
  }

  /** Every request sequence gets disjoint slices inside a buffer that was built. */
  lemma BuiltSlices(umd: Umd, id: nat, auto: bool, me: Me, infos: seq<Info>, j: nat, k: nat)
    requires umd.length < TWO_32 && !umd.manageRemote
    requires (umd.threshold == THRESH_INF || umd.threshold >= 0) && Build(umd, id, auto).Some?
    requires j < k < |Feed(me, Build(umd, id, auto).value, infos).1|
    ensures var md := Build(umd, id, auto).value; var slices := Feed(me, md, infos).1;
            slices[j].offset + slices[j].length <= slices[k].offset <= slices[k].offset + slices[k].length <= md.length
  {
    BuiltWell(umd, id, auto);
    SlicesDisjoint(me, Build(umd, id, auto).value, infos, j, k);
  }

  /** DIV_ROUND_UP of the offset in the first page plus the length. */
  function Pages(start: int, length: nat): nat {
    (start % PAGE_SIZE + length + PAGE_SIZE - 1) / PAGE_SIZE
  }

  /** offset_in_page. */
  function InPage(pa: int): nat {
    pa % PAGE_SIZE
  }

  /** Fragment i is a non-empty piece of one page and begins where the fragments before it end. */
  ghost predicate CutAt(start: nat, frags: seq<Frag>, i: nat)
    requires i < |frags|
  {
    frags[i].len >= 1 && OnePage(frags[i]) && frags[i].offset == InPage(start + Total(frags[..i]))
  }

  ghost predicate Cut(start: nat, frags: seq<Frag>) {
    forall i: nat | i < |frags| :: CutAt(start, frags, i)
  }

  /**
    The loop that splits a contiguous buffer into pages. The length becomes an int: from 2^31 up it is
    negative, and one fragment of the whole length comes out. The vector allocated for the fragments is
    filled exactly unless that happens, or the buffer is empty and does not begin at a page.
  */
  method SplitPages(start: nat, length: nat) returns (kiov: seq<Frag>)
    requires length < TWO_32
    ensures length < TWO_31 ==> Total(kiov) == length
    ensures length >= TWO_31 ==> kiov == [Frag(InPage(start), length)]
    ensures Cut(start, kiov) <==> length < TWO_31
    ensures |kiov| == Pages(start, length) <==> length < TWO_31 && (length > 0 || InPage(start) == 0)
  {
    var pa: int, len := start, AsInt(length);
    kiov := [];
    while len != 0
      invariant SplitSoFar(start, length, pa, len, kiov)
      decreases if len < 0 then 1 else len
    {
      var plen := if len < PAGE_SIZE - InPage(pa) then len else PAGE_SIZE - InPage(pa);
      SplitStep(start, length, pa, len, kiov, plen);
      // bv_len is unsigned
      kiov := kiov + [Frag(InPage(pa), plen % TWO_32)];
      len, pa := len - plen, pa + plen;
    }
    SplitDone(start, length, pa, kiov);
  }

  /** Where the loop is: pa is behind the fragments made, and len is what is left. */
  ghost predicate SplitSoFar(start: nat, length: nat, pa: int, len: int, kiov: seq<Frag>) {
    if length < TWO_31 then
      && 0 <= len && pa == start + Total(kiov) && len == length - Total(kiov) && Cut(start, kiov)
      && Needed(pa, len) + |kiov| == Needed(start, length)
    else
      || (pa == start && len == length - TWO_32 && kiov == [])
      || (len == 0 && kiov == [Frag(InPage(start), length)])
  }

  lemma SplitStep(start: nat, length: nat, pa: int, len: int, kiov: seq<Frag>, plen: int)
    requires length < TWO_32 && SplitSoFar(start, length, pa, len, kiov) && len != 0
    requires plen == if len < PAGE_SIZE - InPage(pa) then len else PAGE_SIZE - InPage(pa)
    ensures SplitSoFar(start, length, pa + plen, len - plen, kiov + [Frag(InPage(pa), plen % TWO_32)])
    ensures len < 0 ==> plen == len
    ensures len > 0 ==> 1 <= plen <= len
  {
    if length < TWO_31 {
      NextPage(pa, len, plen);
      CutMore(start, kiov, Frag(InPage(pa), plen));
    } else {
      assert plen == length - TWO_32 && plen % TWO_32 == length;
    }
  }

  lemma SplitDone(start: nat, length: nat, pa: int, kiov: seq<Frag>)
    requires length < TWO_32 && SplitSoFar(start, length, pa, 0, kiov)
    ensures length < TWO_31 ==> Total(kiov) == length
    ensures length >= TWO_31 ==> kiov == [Frag(InPage(start), length)]
    ensures Cut(start, kiov) <==> length < TWO_31
    ensures |kiov| == Pages(start, length) <==> length < TWO_31 && (length > 0 || InPage(start) == 0)
  {
    if length >= TWO_31 {
      assert !CutAt(start, kiov, 0);
    }
  }

  /** The pages that hold some byte of the buffer; none for an empty one. */
  function Needed(start: int, length: nat): nat {
    if length == 0 then 0 else Pages(start, length)
  }

  lemma CutMore(start: nat, frags: seq<Frag>, f: Frag)
    requires Cut(start, frags) && f.len >= 1 && OnePage(f) && f.offset == InPage(start + Total(frags))
    ensures Cut(start, frags + [f]) && Total(frags + [f]) == Total(frags) + f.len
  {
    var more := frags + [f];
    assert more[..|frags|] == frags;
    forall i: nat | i < |more|
      ensures CutAt(start, more, i)
    {
      if i < |frags| {
        assert more[..i] == frags[..i] && CutAt(start, frags, i);
      }
    }
  }

  /** One page less is needed after each fragment. */
  lemma NextPage(pa: int, len: nat, plen: nat)
    requires len >= 1 && plen == if len < PAGE_SIZE - InPage(pa) then len else PAGE_SIZE - InPage(pa)
    ensures 1 <= plen <= len && Needed(pa + plen, len - plen) + 1 == Needed(pa, len)
  {
    if plen < len {
      assert (pa + plen) % PAGE_SIZE == 0;
    }
  }
}
