/**
  The debug trace buffers (lnet/libcfs/tracefile.c): page lists per CPU and context type that
  loggers fill, and a dump that collects all pages, writes them out, and puts back what could not
  be written.
*/
module TracePages {
  import opened Machine

  /** The first guess for the length of a message. */
  const SEED: nat := 85

  /** The CPU and the context type a page list is for. */
  datatype Tag = Tag(cpu: nat, kind: nat)

  datatype Page = Page(id: nat, tag: Tag, used: nat)

  /** cfs_trace_cpu_data; `live` counts pages allocated less pages freed on behalf of this list. */
  datatype Tcd = Tcd(tag: Tag, max: nat, pages: seq<Page>, cur: int, live: int)

  // ----- finding room

  /** cfs_trace_get_tage_try; None when there is no room and no page can be had. `newId` is the id a
      page would get, `alloc` whether memory is available. */
  function GetTageTry(t: Tcd, len: nat, newId: nat, alloc: bool): (r: (Tcd, bool)) {
    if t.cur > 0 && t.pages != [] && t.pages[|t.pages| - 1].used + len <= PAGE_SIZE then (t, true)
    else if t.cur < t.max && alloc then
      (t.(pages := t.pages + [Page(newId, t.tag, 0)], cur := t.cur + 1, live := t.live + 1), true)
    else (t, false)
  }

  /** cfs_tcd_shrink: the oldest tenth goes. */
  function Shrink(t: Tcd): Tcd {
    var n := t.cur / 10;
    if 0 <= n <= |t.pages| then t.(pages := t.pages[n..], cur := t.cur - n, live := t.live - n) else t
  }

  /** The oldest page is emptied and becomes the newest. */
  function Recycle(t: Tcd): Tcd
    requires t.pages != []
  {
    t.(pages := t.pages[1..] + [t.pages[0].(used := 0)])
  }

  /** cfs_trace_get_tage: the page to use is the last one of the list. */
  function GetTage(t: Tcd, len: nat, newId: nat, alloc: bool, daemon: bool): (Tcd, bool) {
    if len > PAGE_SIZE then (t, false)
    else
      var r := GetTageTry(t, len, newId, alloc);
      if r.1 then r
      else
        var s := if daemon then Shrink(t) else t;
        if s.cur > 0 && s.pages != [] then (Recycle(s), true) else (s, false)
  }

  /** Adds n bytes to the last page. */
  function Fill(t: Tcd, n: nat): Tcd
    requires t.pages != []
  {
    var last := t.pages[|t.pages| - 1];
    t.(pages := t.pages[..|t.pages| - 1] + [last.(used := last.used + n)])
  }

  /** The page the next message goes to. */
  function LastUsed(t: Tcd): nat
    requires t.pages != []
  {
    t.pages[|t.pages| - 1].used
  }

  /** The second pass knows the length and cuts the message to the room there is. */
  function SecondPass(t: Tcd, known: nat, len: nat, newId: nat, alloc: bool, daemon: bool): Tcd {
    CutIn(GetTage(t, len + known + 1, newId, alloc, daemon), known, len)
  }

  function CutIn(got: (Tcd, bool), known: nat, len: nat): Tcd {
    if !got.1 || got.0.pages == [] then got.0
    else
      var room := PAGE_SIZE - LastUsed(got.0) - known;
      if room <= 0 then got.0 else Fill(got.0, known + if len < room then len else room - 1)
  }

  /**
    libcfs_debug_msg up to the console: a message of `len` characters with `known` bytes in front of
    it. The first pass only guesses the length.
  */
  function LogMsg(t: Tcd, known: nat, len: nat, newId: (nat, nat), alloc: (bool, bool), daemon: bool): Tcd {
    FirstPass(GetTage(t, SEED + known + 1, newId.0, alloc.0, daemon), known, len, newId.1, alloc.1, daemon)
  }

  function FirstPass(got: (Tcd, bool), known: nat, len: nat, newId: nat, alloc: bool, daemon: bool): Tcd {
    if !got.1 || got.0.pages == [] then got.0
    else
      var room := PAGE_SIZE - LastUsed(got.0) - known;
      if room <= 0 then got.0
      else if len < room then Fill(got.0, known + len)
      else SecondPass(got.0, known, len, newId, alloc, daemon)
  }

  /** Counters right, pages tagged with their list and never overfull. */
  ghost predicate TcdOk(t: Tcd) {
    && t.cur == |t.pages|
    && AllPages(t.pages, t.tag)
  }

  ghost predicate AllPages(pages: seq<Page>, tag: Tag) {
    forall i | 0 <= i < |pages| :: pages[i].used <= PAGE_SIZE && pages[i].tag == tag
  }

  /** Same list, same balance of pages held and pages allocated. */
  ghost predicate SameBook(s: Tcd, t: Tcd) {
    && s.tag == t.tag && s.max == t.max
    && t.live - s.live == |t.pages| - |s.pages|
  }

  lemma GetTageOk(t: Tcd, len: nat, newId: nat, alloc: bool, daemon: bool)
    requires TcdOk(t)
    ensures var r := GetTage(t, len, newId, alloc, daemon);
            && TcdOk(r.0) && SameBook(t, r.0)
            && (r.1 ==> r.0.pages != [] && LastUsed(r.0) + len <= PAGE_SIZE)
  {
    var r := GetTageTry(t, len, newId, alloc);
    if len <= PAGE_SIZE && !r.1 {
      var s := if daemon then Shrink(t) else t;
      if daemon {
        ShrinkOk(t);
      }
      if s.cur > 0 {
        RecycleOk(s);
      }
    }
  }

  lemma ShrinkOk(t: Tcd)
    requires TcdOk(t)
    ensures TcdOk(Shrink(t)) && SameBook(t, Shrink(t))
  {
  }

  lemma RecycleOk(t: Tcd)
    requires TcdOk(t) && t.pages != []
    ensures TcdOk(Recycle(t)) && SameBook(t, Recycle(t)) && Recycle(t).pages != [] && LastUsed(Recycle(t)) == 0
  {
  }

  lemma FillOk(t: Tcd, n: nat)
    requires TcdOk(t) && t.pages != [] && LastUsed(t) + n <= PAGE_SIZE
    ensures TcdOk(Fill(t, n)) && SameBook(t, Fill(t, n))
  {
  }

  lemma CutInOk(got: (Tcd, bool), known: nat, len: nat)
    requires TcdOk(got.0)
    ensures var s := CutIn(got, known, len); TcdOk(s) && SameBook(got.0, s)
  {
    var t := got.0;
    if got.1 && t.pages != [] && LastUsed(t) + known < PAGE_SIZE {
      var room := PAGE_SIZE - LastUsed(t) - known;
      FillOk(t, known + if len < room then len else room - 1);
    }
  }

  lemma SecondPassOk(t: Tcd, known: nat, len: nat, newId: nat, alloc: bool, daemon: bool)
    requires TcdOk(t)
    ensures var s := SecondPass(t, known, len, newId, alloc, daemon); TcdOk(s) && SameBook(t, s)
  {
    GetTageOk(t, len + known + 1, newId, alloc, daemon);
    CutInOk(GetTage(t, len + known + 1, newId, alloc, daemon), known, len);
  }

  lemma FirstPassOk(got: (Tcd, bool), known: nat, len: nat, newId: nat, alloc: bool, daemon: bool)
    requires TcdOk(got.0)
    ensures var s := FirstPass(got, known, len, newId, alloc, daemon); TcdOk(s) && SameBook(got.0, s)
  {
    var t := got.0;
    if got.1 && t.pages != [] {
      if known + len < PAGE_SIZE - LastUsed(t) {
        FillOk(t, known + len);
      } else {
        SecondPassOk(t, known, len, newId, alloc, daemon);
      }
    }
  }

  /** Logging keeps a list in order: the bound on `used` holds and no page is lost or gained. */
  lemma LogOk(t: Tcd, known: nat, len: nat, newId: (nat, nat), alloc: (bool, bool), daemon: bool)
    requires TcdOk(t)
    ensures var s := LogMsg(t, known, len, newId, alloc, daemon); TcdOk(s) && SameBook(t, s)
  {
    GetTageOk(t, SEED + known + 1, newId.0, alloc.0, daemon);
    FirstPassOk(GetTage(t, SEED + known + 1, newId.0, alloc.0, daemon), known, len, newId.1, alloc.1, daemon);
  }

  /** n bytes were added: behind what the last page held, or on a new page. */
  predicate Stored(t: Tcd, s: Tcd, n: nat, newId: (nat, nat)) {
    || (t.pages != [] && s.pages == Fill(t, n).pages)
    || s.pages == t.pages + [Page(newId.0, t.tag, n)]
    || s.pages == t.pages + [Page(newId.1, t.tag, n)]
  }

  function WithPage(t: Tcd, id: nat): Tcd {
    t.(pages := t.pages + [Page(id, t.tag, 0)], cur := t.cur + 1, live := t.live + 1)
  }

  lemma FillNew(t: Tcd, id: nat, n: nat)
    ensures Fill(WithPage(t, id), n).pages == t.pages + [Page(id, t.tag, n)]
  {
    assert WithPage(t, id).pages[..|t.pages|] == t.pages;
  }

  /** A page that is returned is the last one, or a new one if the last has no room. */
  lemma RoomOrNew(t: Tcd, len: nat, newId: nat, daemon: bool)
    requires TcdOk(t) && len <= PAGE_SIZE && t.cur < t.max
    ensures GetTage(t, len, newId, true, daemon) ==
            if t.pages != [] && LastUsed(t) + len <= PAGE_SIZE then (t, true) else (WithPage(t, newId), true)
  {
  }

  /** The second pass finds no room behind the last page and starts a new one. */
  lemma SecondStores(t: Tcd, known: nat, len: nat, newId: nat, daemon: bool)
    requires TcdOk(t) && len + known + 1 <= PAGE_SIZE && t.cur < t.max && t.pages != []
    requires len >= PAGE_SIZE - LastUsed(t) - known
    ensures SecondPass(t, known, len, newId, true, daemon).pages == t.pages + [Page(newId, t.tag, known + len)]
  {
    RoomOrNew(t, len + known + 1, newId, daemon);
    FillNew(t, newId, known + len);
  }

  /** A message that fits a page is stored whole when pages can be had, and nothing else changes. */
  lemma NothingCut(t: Tcd, known: nat, len: nat, newId: (nat, nat), daemon: bool)
    requires TcdOk(t) && SEED + known + 1 <= PAGE_SIZE && len + known + 1 <= PAGE_SIZE && t.cur < t.max
    ensures Stored(t, LogMsg(t, known, len, newId, (true, true), daemon), known + len, newId)
  {
    RoomOrNew(t, SEED + known + 1, newId.0, daemon);
    FillNew(t, newId.0, known + len);
    if t.pages != [] && len >= PAGE_SIZE - LastUsed(t) - known {
      SecondStores(t, known, len, newId.1, daemon);
    }
  }

  /**
    The page for len bytes: the last one if it has the room, else a new one if there may be one, else
    the oldest one, emptied, behind the others, after the oldest tenth has gone if a daemon runs. There
    is none only for more than a page, or if the list is empty and stays so.
  */
  lemma PageExact(t: Tcd, len: nat, newId: nat, alloc: bool, daemon: bool)
    requires TcdOk(t)
    ensures var (s, ok) := GetTage(t, len, newId, alloc, daemon);
            && (ok <==> len <= PAGE_SIZE && (t.pages != [] || (t.max > 0 && alloc)))
            && s.pages == if !ok || (t.pages != [] && LastUsed(t) + len <= PAGE_SIZE) then t.pages
                          else if |t.pages| < t.max && alloc then t.pages + [Page(newId, t.tag, 0)]
                          else var n := if daemon then |t.pages| / 10 else 0; t.pages[n + 1..] + [t.pages[n].(used := 0)]
  {
  }

  /** Only the last page changes, by n more bytes. */
  ghost predicate Holds(t: Tcd, s: Tcd, n: nat) {
    var last := |t.pages| - 1;
    && last >= 0 && |s.pages| == |t.pages| && s.pages[..last] == t.pages[..last]
    && s.pages[last] == t.pages[last].(used := t.pages[last].used + n)
  }

  /** The message and what goes in front of it fit a page, the guess does, and there is a page. */
  predicate Storable(t: Tcd, known: nat, len: nat, alloc: bool) {
    len + known + 1 <= PAGE_SIZE && SEED + known + 1 <= PAGE_SIZE && (t.pages != [] || (t.max > 0 && alloc))
  }

  /** A message is stored whole, on the page the first or the second look finds, or not at all: it is never cut. */
  lemma WholeOrNothing(t: Tcd, known: nat, len: nat, newId: (nat, nat), alloc: (bool, bool), daemon: bool) returns (got: Tcd)
    requires TcdOk(t)
    ensures var first := GetTage(t, SEED + known + 1, newId.0, alloc.0, daemon).0;
            got == first || got == GetTage(first, len + known + 1, newId.1, alloc.1, daemon).0
    ensures var s := LogMsg(t, known, len, newId, alloc, daemon);
            if Storable(t, known, len, alloc.0) then Holds(got, s, known + len) else s == got
  {
    PageHad(t, SEED + known + 1, newId.0, alloc.0, daemon);
    got := FirstWhole(GetTage(t, SEED + known + 1, newId.0, alloc.0, daemon), known, len, newId.1, alloc.1, daemon);
  }

  /** Whether a page is found, and that it then has the room. */
  lemma PageHad(t: Tcd, len: nat, newId: nat, alloc: bool, daemon: bool)
    requires TcdOk(t)
    ensures var (s, ok) := GetTage(t, len, newId, alloc, daemon);
            && TcdOk(s) && (ok <==> len <= PAGE_SIZE && (t.pages != [] || (t.max > 0 && alloc)))
            && (ok ==> s.pages != [] && LastUsed(s) + len <= PAGE_SIZE)
  {
    PageExact(t, len, newId, alloc, daemon);
    GetTageOk(t, len, newId, alloc, daemon);
  }

  lemma FirstWhole(found: (Tcd, bool), known: nat, len: nat, newId: nat, alloc: bool, daemon: bool) returns (got: Tcd)
    requires TcdOk(found.0) && (found.1 ==> found.0.pages != [] && LastUsed(found.0) + known < PAGE_SIZE)
    ensures got == found.0 || got == GetTage(found.0, len + known + 1, newId, alloc, daemon).0
    ensures var s := FirstPass(found, known, len, newId, alloc, daemon);
            if found.1 && len + known + 1 <= PAGE_SIZE then Holds(got, s, known + len) else s == got
  {
    got := found.0;
    if found.1 {
      if known + len < PAGE_SIZE - LastUsed(got) {
        FillHolds(got, known + len);
      } else {
        PageHad(found.0, len + known + 1, newId, alloc, daemon);
        CutInWhole(GetTage(found.0, len + known + 1, newId, alloc, daemon), known, len);
        got := GetTage(found.0, len + known + 1, newId, alloc, daemon).0;
      }
    }
  }

  lemma CutInWhole(found: (Tcd, bool), known: nat, len: nat)
    requires found.1 ==> found.0.pages != [] && LastUsed(found.0) + len + known + 1 <= PAGE_SIZE
    ensures var s := CutIn(found, known, len); if found.1 then Holds(found.0, s, known + len) else s == found.0
  {
    if found.1 {
      FillHolds(found.0, known + len);
    }
  }

  lemma FillHolds(t: Tcd, n: nat)
    requires t.pages != []
    ensures Holds(t, Fill(t, n), n)
  {
  }

  // ----- the dump

  datatype Phase = Idle | Collecting(k: nat) | Writing | Restoring(k: nat)

  /**
    All lists, the collection of the dump in progress, and, per list, its pages when they were
    collected.
  */
  datatype State = State(tcds: seq<Tcd>, pc: seq<Page>, phase: Phase, taken: seq<seq<Page>>, held: int)

  datatype Step =
    | Log(t: nat, known: nat, len: nat, newId: (nat, nat), alloc: (bool, bool), daemon: bool)
    | StartDump
    | Collect        // one list, under its lock
    | WritePage      // the first page of the collection is written and freed
    | WriteFails
    | Restore        // one list, under its lock
    | Finish         // everything written, or everything put back

  /** The pages of the collection that carry the tag, in order. */
  function Of(pc: seq<Page>, tag: Tag): seq<Page> {
    if pc == [] then [] else (if pc[0].tag == tag then [pc[0]] else []) + Of(pc[1..], tag)
  }

  function NotOf(pc: seq<Page>, tag: Tag): seq<Page> {
    if pc == [] then [] else (if pc[0].tag == tag then [] else [pc[0]]) + NotOf(pc[1..], tag)
  }

  predicate Enabled(s: State, step: Step) {
    && |s.taken| == |s.tcds|
    && match step
       case Log(t, _, _, _, _, _) => t < |s.tcds|
       case StartDump => s.phase.Idle?
       case Collect => s.phase.Collecting? && s.phase.k < |s.tcds|
       case WritePage => s.phase.Writing? && s.pc != []
       case WriteFails => s.phase.Writing? && s.pc != []
       case Restore => s.phase.Restoring? && s.phase.k < |s.tcds|
       case Finish => (s.phase.Writing? && s.pc == []) || (s.phase.Restoring? && s.phase.k == |s.tcds|)
  }

  function Next(k: nat, n: nat): Phase {
    if k + 1 == n then Writing else Collecting(k + 1)
  }

  /** list_splice_init puts the pages of the list before those collected so far. */
  function CollectAt(s: State, k: nat): State
    requires k < |s.tcds| && |s.taken| == |s.tcds|
  {
    var t := s.tcds[k];
    s.(tcds := s.tcds[k := t.(pages := [], cur := 0)], pc := t.pages + s.pc, taken := s.taken[k := t.pages],
       phase := Next(k, |s.tcds|))
  }

  /** Pages are moved before the page that was first when the list was locked. */
  function RestoreAt(s: State, k: nat): State
    requires k < |s.tcds|
  {
    var t := s.tcds[k];
    var back := Of(s.pc, t.tag);
    s.(tcds := s.tcds[k := t.(pages := back + t.pages, cur := t.cur + |back|)], pc := NotOf(s.pc, t.tag),
       phase := Restoring(k + 1))
  }

  /** List t becomes tcd. */
  function Logged(s: State, t: nat, tcd: Tcd): State
    requires t < |s.tcds|
  {
    s.(tcds := s.tcds[t := tcd], held := s.held + tcd.live - s.tcds[t].live)
  }

  function Apply(s: State, step: Step): State
    requires Enabled(s, step)
  {
    match step
    case Log(t, known, len, newId, alloc, daemon) =>
      Logged(s, t, LogMsg(s.tcds[t], known, len, newId, alloc, daemon))
    case StartDump => s.(pc := [], phase := if s.tcds == [] then Writing else Collecting(0))
    case Collect => CollectAt(s, s.phase.k)
    case WritePage => s.(pc := s.pc[1..], held := s.held - 1)
    case WriteFails => s.(phase := Restoring(0))
    case Restore => RestoreAt(s, s.phase.k)
    case Finish => s.(phase := Idle)
  }

  predicate Feasible(s: State, steps: seq<Step>)
    decreases |steps|
  {
    steps != [] ==> Enabled(s, steps[0]) && Feasible(Apply(s, steps[0]), steps[1..])
  }

  function Exec(s: State, steps: seq<Step>): State
    requires Feasible(s, steps)
    decreases |steps|
  {
    if steps == [] then s else Exec(Apply(s, steps[0]), steps[1..])
  }

  /** One empty list for every tag. */
  predicate Init(s: State) {
    && s.phase.Idle? && s.pc == [] && s.held == 0 && |s.taken| == |s.tcds|
    && (forall t | 0 <= t < |s.tcds| :: s.tcds[t].pages == [] && s.tcds[t].cur == 0)
    && (forall t, u | 0 <= t < u < |s.tcds| :: s.tcds[t].tag != s.tcds[u].tag)
  }

  // ----- splitting the collection by tag

  lemma {:induction false} OfConcat(a: seq<Page>, b: seq<Page>, tag: Tag)
    ensures Of(a + b, tag) == Of(a, tag) + Of(b, tag)
  {
    if a == [] {
      assert a + b == b;
    } else {
      assert (a + b)[1..] == a[1..] + b;
      OfConcat(a[1..], b, tag);
    }
  }

  lemma {:induction false} OfSame(pages: seq<Page>, tag: Tag, other: Tag)
    requires AllPages(pages, tag)
    ensures Of(pages, other) == if tag == other then pages else []
  {
    if pages != [] {
      OfSame(pages[1..], tag, other);
    }
  }

  lemma {:induction false} OfNotOf(pc: seq<Page>, tag: Tag, other: Tag)
    ensures Of(NotOf(pc, tag), other) == if tag == other then [] else Of(pc, other)
    ensures |NotOf(pc, tag)| + |Of(pc, tag)| == |pc|
  {
    if pc != [] {
      OfNotOf(pc[1..], tag, other);
      OfConcat(if pc[0].tag == tag then [] else [pc[0]], NotOf(pc[1..], tag), other);
    }
  }

  predicate IsSuffix(a: seq<Page>, b: seq<Page>) {
    |a| <= |b| && a == b[|b| - |a|..]
  }

  // ----- the invariant

  function Total(tcds: seq<Tcd>): nat {
    if tcds == [] then 0 else |tcds[0].pages| + Total(tcds[1..])
  }

  lemma {:induction false} TotalUpdate(tcds: seq<Tcd>, k: nat, t: Tcd)
    requires k < |tcds|
    ensures Total(tcds[k := t]) == Total(tcds) - |tcds[k].pages| + |t.pages|
  {
    if k == 0 {
      assert tcds[k := t][1..] == tcds[1..];
    } else {
      assert tcds[k := t][1..] == tcds[1..][k - 1 := t];
      TotalUpdate(tcds[1..], k - 1, t);
    }
  }

  /** Lists are right and have different tags. */
  ghost predicate ListsOk(s: State) {
    && |s.taken| == |s.tcds|
    && (forall t | 0 <= t < |s.tcds| :: TcdOk(s.tcds[t]))
    && (forall t, u | 0 <= t < u < |s.tcds| :: s.tcds[t].tag != s.tcds[u].tag)
  }

  /** Every collected page fits a page and carries the tag of some list. */
  ghost predicate CollectionOk(s: State) {
    forall i | 0 <= i < |s.pc| :: s.pc[i].used <= PAGE_SIZE && HasList(s, s.pc[i].tag)
  }

  ghost predicate HasList(s: State, tag: Tag) {
    exists t | 0 <= t < |s.tcds| :: s.tcds[t].tag == tag
  }

  /** What the collection holds of list t. */
  ghost predicate ShareOk(s: State, t: nat)
    requires t < |s.tcds| && |s.taken| == |s.tcds|
  {
    var share := Of(s.pc, s.tcds[t].tag);
    match s.phase
    case Idle => share == []
    case Collecting(k) => share == if t < k then s.taken[t] else []
    case Writing => IsSuffix(share, s.taken[t])
    case Restoring(k) => if t < k then share == [] else IsSuffix(share, s.taken[t])
  }

  ghost predicate Inv(s: State) {
    && ListsOk(s)
    && CollectionOk(s)
    && (forall t | 0 <= t < |s.tcds| :: ShareOk(s, t))
    && s.held == Total(s.tcds) + |s.pc|
  }

  /** A collection whose pages all have lists is empty once no list has a share. */
  lemma NothingLeft(s: State)
    requires CollectionOk(s) && forall t | 0 <= t < |s.tcds| :: Of(s.pc, s.tcds[t].tag) == []
    ensures s.pc == []
  {
    assert s.pc != [] ==> HasList(s, s.pc[0].tag);
  }

  lemma LogKeeps(s: State, step: Step)
    requires Inv(s) && Enabled(s, step) && step.Log?
    ensures Inv(Apply(s, step))
  {
    var t := s.tcds[step.t];
    LogOk(t, step.known, step.len, step.newId, step.alloc, step.daemon);
    SameTags(s, step.t, LogMsg(t, step.known, step.len, step.newId, step.alloc, step.daemon));
  }

  /** A list changes but keeps its tag: nothing else is disturbed. */
  lemma SameTags(s: State, k: nat, t: Tcd)
    requires Inv(s) && k < |s.tcds| && TcdOk(t) && SameBook(s.tcds[k], t)
    ensures Inv(Logged(s, k, t))
  {
    var s' := Logged(s, k, t);
    TotalUpdate(s.tcds, k, t);
    forall i | 0 <= i < |s.pc|
      ensures HasList(s', s.pc[i].tag)
    {
      var u :| 0 <= u < |s.tcds| && s.tcds[u].tag == s.pc[i].tag;
      assert s'.tcds[u].tag == s.pc[i].tag;
    }
    forall u | 0 <= u < |s.tcds|
      ensures ShareOk(s', u)
    {
      assert ShareOk(s, u) && s'.tcds[u].tag == s.tcds[u].tag;
    }
  }

  lemma CollectShares(s: State, k: nat, t: nat)
    requires Inv(s) && s.phase == Collecting(k) && k < |s.tcds| && t < |s.tcds|
    ensures ShareOk(CollectAt(s, k), t)
  {
    var s' := CollectAt(s, k);
    var tag := s.tcds[t].tag;
    assert s'.tcds[t].tag == tag;
    OfConcat(s.tcds[k].pages, s.pc, tag);
    assert TcdOk(s.tcds[k]) && ShareOk(s, t);
    OfSame(s.tcds[k].pages, s.tcds[k].tag, tag);
    if t == k {
      assert Of(s.pc, tag) == [];
      assert Of(s'.pc, tag) == s.tcds[k].pages;
    } else {
      assert Of(s'.pc, tag) == Of(s.pc, tag);
    }
  }

  lemma CollectKeeps(s: State)
    requires Inv(s) && Enabled(s, Collect)
    ensures Inv(Apply(s, Collect))
  {
    var k := s.phase.k;
    var s' := CollectAt(s, k);
    TotalUpdate(s.tcds, k, s'.tcds[k]);
    forall t | 0 <= t < |s.tcds|
      ensures ShareOk(s', t)
    {
      CollectShares(s, k, t);
    }
    forall i | 0 <= i < |s'.pc|
      ensures s'.pc[i].used <= PAGE_SIZE && HasList(s', s'.pc[i].tag)
    {
      var n := |s.tcds[k].pages|;
      if i < n {
        assert s'.pc[i] == s.tcds[k].pages[i] && TcdOk(s.tcds[k]);
        assert s'.tcds[k].tag == s'.pc[i].tag;
      } else {
        assert s'.pc[i] == s.pc[i - n];
        var u :| 0 <= u < |s.tcds| && s.tcds[u].tag == s.pc[i - n].tag;
        assert s'.tcds[u].tag == s'.pc[i].tag;
      }
    }
  }

  lemma WriteKeeps(s: State)
    requires Inv(s) && Enabled(s, WritePage)
    ensures Inv(Apply(s, WritePage))
  {
    var s' := Apply(s, WritePage);
    forall t | 0 <= t < |s.tcds|
      ensures ShareOk(s', t)
    {
      assert ShareOk(s, t);
    }
    forall i | 0 <= i < |s'.pc|
      ensures s'.pc[i].used <= PAGE_SIZE && HasList(s', s'.pc[i].tag)
    {
      assert s'.pc[i] == s.pc[i + 1];
      assert HasList(s, s.pc[i + 1].tag);
    }
  }

  lemma {:induction false} OfPages(pc: seq<Page>, tag: Tag)
    requires forall i | 0 <= i < |pc| :: pc[i].used <= PAGE_SIZE
    ensures AllPages(Of(pc, tag), tag)
  {
    if pc != [] {
      OfPages(pc[1..], tag);
    }
  }

  lemma {:induction false} NotOfIn(pc: seq<Page>, tag: Tag)
    ensures forall i | 0 <= i < |NotOf(pc, tag)| :: NotOf(pc, tag)[i] in pc
  {
    if pc != [] {
      NotOfIn(pc[1..], tag);
    }
  }

  lemma RestoreShares(s: State, k: nat, t: nat)
    requires Inv(s) && s.phase == Restoring(k) && k < |s.tcds| && t < |s.tcds|
    ensures ShareOk(RestoreAt(s, k), t)
  {
    assert ShareOk(s, t) && RestoreAt(s, k).tcds[t].tag == s.tcds[t].tag;
    OfNotOf(s.pc, s.tcds[k].tag, s.tcds[t].tag);
  }

  lemma RestoreLists(s: State, k: nat)
    requires Inv(s) && s.phase == Restoring(k) && k < |s.tcds|
    ensures ListsOk(RestoreAt(s, k))
  {
    OfPages(s.pc, s.tcds[k].tag);
    assert TcdOk(s.tcds[k]);
  }

  lemma RestoreKeeps(s: State)
    requires Inv(s) && Enabled(s, Restore)
    ensures Inv(Apply(s, Restore))
  {
    var k := s.phase.k;
    var s' := RestoreAt(s, k);
    var tag := s.tcds[k].tag;
    RestoreLists(s, k);
    TotalUpdate(s.tcds, k, s'.tcds[k]);
    OfNotOf(s.pc, tag, tag);
    forall t | 0 <= t < |s.tcds|
      ensures ShareOk(s', t)
    {
      RestoreShares(s, k, t);
    }
    NotOfIn(s.pc, tag);
    forall i | 0 <= i < |s'.pc|
      ensures s'.pc[i].used <= PAGE_SIZE && HasList(s', s'.pc[i].tag)
    {
      var j :| 0 <= j < |s.pc| && s.pc[j] == s'.pc[i];
      var u :| 0 <= u < |s.tcds| && s.tcds[u].tag == s.pc[j].tag;
      assert s'.tcds[u].tag == s'.pc[i].tag;
    }
  }

  lemma PhaseKeeps(s: State, step: Step)
    requires Inv(s) && Enabled(s, step) && (step.StartDump? || step.WriteFails? || step.Finish?)
    ensures Inv(Apply(s, step))
    ensures step.StartDump? || step.Finish? ==> s.pc == []
  {
    var s' := Apply(s, step);
    forall t | 0 <= t < |s.tcds|
      ensures ShareOk(s', t) && (!step.WriteFails? ==> Of(s.pc, s.tcds[t].tag) == [])
    {
      assert ShareOk(s, t);
    }
    if !step.WriteFails? {
      NothingLeft(s);
    }
    forall i | 0 <= i < |s'.pc|
      ensures HasList(s', s'.pc[i].tag)
    {
      assert HasList(s, s.pc[i].tag);
    }
  }

  /** Every step keeps the lists, the collection and the balance of pages. */
  lemma InvPreserved(s: State, step: Step)
    requires Inv(s) && Enabled(s, step)
    ensures Inv(Apply(s, step))
  {
    match step
    case Log(_, _, _, _, _, _) => LogKeeps(s, step);
    case StartDump => PhaseKeeps(s, step);
    case Collect => CollectKeeps(s);
    case WritePage => WriteKeeps(s);
    case WriteFails => PhaseKeeps(s, step);
    case Restore => RestoreKeeps(s);
    case Finish => PhaseKeeps(s, step);
  }

  lemma {:induction false} ExecInv(s: State, steps: seq<Step>)
    requires Inv(s) && Feasible(s, steps)
    ensures Inv(Exec(s, steps))
    decreases |steps|
  {
    if steps != [] {
      InvPreserved(s, steps[0]);
      ExecInv(Apply(s, steps[0]), steps[1..]);
    }
  }

  lemma {:induction false} NoPages(tcds: seq<Tcd>)
    requires forall t | 0 <= t < |tcds| :: tcds[t].pages == []
    ensures Total(tcds) == 0
  {
    if tcds != [] {
      NoPages(tcds[1..]);
    }
  }

  lemma InitInv(s: State)
    requires Init(s)
    ensures Inv(s)
  {
    NoPages(s.tcds);
  }

  // ----- main results, over every run

  /** Counters agree with the lists, tags are right, no page is overfull, and no page is lost. */
  lemma PagesConserved(s0: State, steps: seq<Step>, t: nat)
    requires Init(s0) && Feasible(s0, steps) && t < |Exec(s0, steps).tcds|
    ensures var s := Exec(s0, steps);
            && s.tcds[t].cur == |s.tcds[t].pages|
            && (forall i | 0 <= i < |s.tcds[t].pages| ::
                  s.tcds[t].pages[i].tag == s.tcds[t].tag && s.tcds[t].pages[i].used <= PAGE_SIZE)
            && s.held == Total(s.tcds) + |s.pc|
  {
    InitInv(s0);
    ExecInv(s0, steps);
    assert TcdOk(Exec(s0, steps).tcds[t]);
  }

  /**
    Putting a list back after a failed dump leaves the pages that survive, which are the end of what
    was collected from it and in that order, followed by what was logged since. The first n are
    missing because they were written: all others of the list are still in the collection.
  */
  lemma RestoredInOrder(s0: State, steps: seq<Step>) returns (n: nat)
    requires Init(s0) && Feasible(s0, steps) && Enabled(Exec(s0, steps), Restore)
    ensures var s := Exec(s0, steps); var k := s.phase.k; var s' := Apply(s, Restore);
            && n <= |s.taken[k]| && s'.tcds[k].pages == s.taken[k][n..] + s.tcds[k].pages
            && s.taken[k][n..] == Of(s.pc, s.tcds[k].tag)
            && (forall t | 0 <= t < |s.tcds| && t != k :: s'.tcds[t] == s.tcds[t])
  {
    InitInv(s0);
    ExecInv(s0, steps);
    var s := Exec(s0, steps);
    var k := s.phase.k;
    assert ShareOk(s, k);
    n := |s.taken[k]| - |Of(s.pc, s.tcds[k].tag)|;
  }

  /** When a dump starts and when it ends, after a failure too, the collection is empty. */
  lemma CollectionEmpty(s0: State, steps: seq<Step>)
    requires Init(s0) && Feasible(s0, steps)
    requires Enabled(Exec(s0, steps), Finish) || Enabled(Exec(s0, steps), StartDump)
    ensures Exec(s0, steps).pc == []
  {
    InitInv(s0);
    ExecInv(s0, steps);
    var s := Exec(s0, steps);
    if Enabled(s, Finish) {
      PhaseKeeps(s, Finish);
    } else {
      PhaseKeeps(s, StartDump);
    }
  }

  // ----- the lists as they are updated in place

  lemma {:induction false} NotOfConcat(a: seq<Page>, b: seq<Page>, tag: Tag)
    ensures NotOf(a + b, tag) == NotOf(a, tag) + NotOf(b, tag)
  {
    if a == [] {
      assert a + b == b;
    } else {
      assert (a + b)[1..] == a[1..] + b;
      NotOfConcat(a[1..], b, tag);
    }
  }

  class TraceList {
    const tag: Tag
    const max: nat
    var pages: seq<Page>
    var cur: int
    var live: int

    ghost function Abs(): Tcd
      reads this
    {
      Tcd(tag, max, pages, cur, live)
    }

    constructor (tag: Tag, max: nat)
      ensures Abs() == Tcd(tag, max, [], 0, 0) && TcdOk(Abs())
    {
      this.tag, this.max := tag, max;
      pages, cur, live := [], 0, 0;
    }

    /** cfs_trace_get_tage_try. */
    method TryPage(len: nat, newId: nat, alloc: bool) returns (ok: bool)
      requires TcdOk(Abs())
      modifies this
      ensures (Abs(), ok) == GetTageTry(old(Abs()), len, newId, alloc)
    {
      if cur > 0 {
        if pages[|pages| - 1].used + len <= PAGE_SIZE {
          return true;
        }
      }
      if cur < max {
        if !alloc {
          return false;
        }
        pages := pages + [Page(newId, tag, 0)];
        cur, live := cur + 1, live + 1;
        return true;
      }
      return false;
    }

    /** cfs_tcd_shrink: frees pages from the head until the tenth is gone. */
    method ShrinkPages()
      requires TcdOk(Abs())
      modifies this
      ensures Abs() == Shrink(old(Abs()))
    {
      var pgcount := cur / 10;
      ghost var n := 0;
      while pages != [] && pgcount != 0
        invariant 0 <= n <= |old(pages)| && pgcount == old(cur) / 10 - n && pgcount >= 0
        invariant pages == old(pages)[n..] && cur == old(cur) - n && live == old(live) - n
        decreases |pages|
      {
        pages := pages[1..];
        cur, live, pgcount, n := cur - 1, live - 1, pgcount - 1, n + 1;
      }
    }

    /** cfs_trace_get_tage. */
    method TakePage(len: nat, newId: nat, alloc: bool, daemon: bool) returns (ok: bool)
      requires TcdOk(Abs())
      modifies this
      ensures (Abs(), ok) == GetTage(old(Abs()), len, newId, alloc, daemon)
      ensures TcdOk(Abs())
    {
      GetTageOk(Abs(), len, newId, alloc, daemon);
      if len > PAGE_SIZE {
        return false;
      }
      ok := TryPage(len, newId, alloc);
      if ok {
        return;
      }
      if daemon {
        ShrinkPages();
      }
      if cur > 0 {
        pages := pages[1..] + [pages[0].(used := 0)];
        ok := true;
      }
    }

    /** The loop of put_pages_back_on_all_cpus for this list; returns what stays in the collection. */
    method PutBack(pc: seq<Page>) returns (rest: seq<Page>)
      modifies this
      ensures Abs() == old(Abs()).(pages := Of(pc, tag) + old(pages), cur := old(cur) + |Of(pc, tag)|)
      ensures rest == NotOf(pc, tag)
    {
      rest := [];
      var moved := [];
      for i := 0 to |pc|
        invariant moved == Of(pc[..i], tag) && rest == NotOf(pc[..i], tag)
        invariant pages == moved + old(pages) && cur == old(cur) + |moved| && live == old(live)
      {
        OfConcat(pc[..i], [pc[i]], tag);
        NotOfConcat(pc[..i], [pc[i]], tag);
        assert pc[..i + 1] == pc[..i] + [pc[i]];
        if pc[i].tag != tag {
          rest := rest + [pc[i]];
        } else {
          // linked in just before the page that was first
          moved := moved + [pc[i]];
          pages := pages[..|moved| - 1] + [pc[i]] + pages[|moved| - 1..];
          cur := cur + 1;
        }
      }
      assert pc[..|pc|] == pc;
    }
  }
}
