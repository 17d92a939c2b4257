/**
  What cfs_parse_nidlist (lib/libcfs/nidstrings.c) makes of any text: which tokens it accepts, how they
  are grouped by network, and that cfs_match_nid on the result matches what some token says.
*/
module NidSyntax {
  import opened Collections
  import opened Numerals
  import opened AddrRange
  import opened RangeExpr
  import opened ExprSyntax
  import opened NidList

  // ----- networks

  /** The text is the name of the network, alone for number 0 or with the number behind it. */
  ghost predicate NetDenotes(s: string, net: nat, num: nat) {
    && net < |NETS| && StartsWith(s, NETS[net].name)
    && var end := s[|NETS[net].name|..];
       if end == "" then num == 0 else Str2Num(Lstr(end, |end|), 0, MAX_NUMERIC_VALUE) == (true, num)
  }

  lemma NetExact(s: string, net: nat, num: nat)
    ensures ParseNet(s) == Some((net, num)) <==> NetDenotes(s, net, num)
  {
    var found := FindNet(s, 0);
    if found.Some? {
      FirstTwo(found.value, s);
    } else if net < |NETS| && StartsWith(s, NETS[net].name) {
      FirstTwo(net, s);
      FindFrom(net, s, 0);
    }
  }

  // ----- tokens

  /** strim: the text without white space at both ends. */
  lemma StrimExact(s: string) returns (k: nat, e: nat)
    ensures k <= e <= |s| && Strim(s) == s[k..e]
    ensures (forall i | 0 <= i < k || e <= i < |s| :: IsSpace(s[i])) && (k < e ==> !IsSpace(s[k]) && !IsSpace(s[e - 1]))
  {
    k := LeadSpaces(s, |s|);
    LeadExact(s, |s|);
    var t := s[k..];
    e := k;
    if t != "" {
      TrimExact(t, |t|);
      e := k + TrimEnd(t, |t|);
      assert t[..TrimEnd(t, |t|)] == s[k..e];
      forall i | e <= i < |s|
        ensures IsSpace(s[i])
      {
        assert s[i] == t[i - k];
      }
    }
  }

  /** Only white space is cut off. */
  lemma StrimKeeps(s: string, c: char)
    requires !IsSpace(c)
    ensures c in Strim(s) <==> c in s
  {
    var k, e := StrimExact(s);
    if c in s {
      var i :| 0 <= i < |s| && s[i] == c;
      assert s[k..e][i - k] == c;
    }
  }

  /** A netmask has a colon, or no closing bracket behind its first slash. */
  lemma NetmaskExact(s: string)
    ensures IsNetmask(s) <==> ':' in s || exists i: nat :: i < |s| && s[i] == '/' && '/' !in s[..i] && ']' !in s[i..]
  {
    FindExact(s, |s|, '/');
    var i := Find(s, |s|, '/');
    assert '/' !in s[..i];
    if j: nat :| j < |s| && s[j] == '/' && '/' !in s[..j] {
      FirstAt(s, '/', j);
    }
  }

  /** The address part of a token: a star for all addresses, or an address range. */
  ghost predicate AddrDenotes(addr: string, net: nat, range: Option<Octets>)
    requires net < |NETS|
  {
    !IsNetmask(addr) && (range.None? <==> addr == "*") && (range.Some? ==> ParseAddr(addr, NETS[net].ip) == range)
  }

  /** Dotted addresses have four parts; each part is a list of ranges below 256. */
  lemma AddrParts(items: seq<string>, octets: Octets)
    requires items != [] && AllRead(OctetParser(), '.', items, octets)
    ensures ParseAddr(Join(items, '.'), true) == if |items| == 4 then Some(octets) else None
  {
    ItemsTrip(items, octets, '.', OctetParser(), "");
    assert Join(items, '.') + "" == Join(items, '.');
  }

  lemma AddrRefused(items: seq<string>, i: nat)
    requires i < |items| && (forall j | 0 <= j < |items| :: Solid(items[j]) && '.' !in items[j])
    requires Refused(OctetParser(), items[i])
    ensures ParseAddr(Join(items, '.'), true).None?
  {
    OneRefused(items, '.', OctetParser(), "", i);
    assert Join(items, '.') + "" == Join(items, '.');
  }

  /** The token is "<addresses>@<network>", with one at-sign, and stands for the item. */
  ghost predicate Denotes(tok: string, item: Item) {
    exists i: nat :: i < |tok| && tok[i] == '@' && '@' !in tok[..i] && '@' !in tok[i + 1..] &&
                     NetDenotes(Strim(tok[i + 1..]), item.net, item.num) && AddrDenotes(tok[..i], item.net, item.addr)
  }

  lemma WhereExact(addr: string, item: Item)
    requires item.net < |NETS|
    ensures ParseWhere(addr, (item.net, item.num)) == Some(item) <==> AddrDenotes(addr, item.net, item.addr)
  {
  }

  lemma WhereSame(addr: string, where: (nat, nat), item: Item)
    requires ParseWhere(addr, where) == Some(item)
    ensures where == (item.net, item.num) && item.net < |NETS|
  {
  }

  lemma PartsParsed(tok: string, addr: string, net: string, item: Item)
    requires CutToken(tok) == Some((addr, net))
    ensures ParseToken(tok) == Some(item) <==> NetDenotes(net, item.net, item.num) && AddrDenotes(addr, item.net, item.addr)
  {
    NetExact(net, item.net, item.num);
    if ParseToken(tok) == Some(item) {
      WhereSame(addr, ParseNet(net).value, item);
    }
    if item.net < |NETS| {
      WhereExact(addr, item);
    }
  }

  /** parse_nidrange accepts exactly the tokens of the syntax. */
  lemma TokenExact(tok: string, item: Item)
    ensures ParseToken(tok) == Some(item) <==> Denotes(tok, item)
  {
    var i := Find(tok, |tok|, '@');
    FindExact(tok, |tok|, '@');
    assert '@' !in tok[..i];
    if i < |tok| {
      assert CutToken(tok) == Parts(tok[..i], Strim(tok[i + 1..]));
      StrimKeeps(tok[i + 1..], '@');
      OneAt(tok, i, item);
      if CutToken(tok).Some? {
        PartsParsed(tok, tok[..i], Strim(tok[i + 1..]), item);
      } else {
        NoNetwork(Strim(tok[i + 1..]), item);
      }
    } else {
      assert '@' !in tok;
    }
  }

  lemma NoNetwork(net: string, item: Item)
    ensures NetDenotes(net, item.net, item.num) ==> net != ""
  {
  }

  /** The first at-sign is the one that counts. */
  lemma OneAt(tok: string, i: nat, item: Item)
    requires i < |tok| && tok[i] == '@' && '@' !in tok[..i]
    ensures Denotes(tok, item) <==> '@' !in tok[i + 1..] && NetDenotes(Strim(tok[i + 1..]), item.net, item.num) &&
                                    AddrDenotes(tok[..i], item.net, item.addr)
  {
    if j: nat :| j < |tok| && tok[j] == '@' && '@' !in tok[..j] && '@' !in tok[j + 1..] &&
                 NetDenotes(Strim(tok[j + 1..]), item.net, item.num) && AddrDenotes(tok[..j], item.net, item.addr) {
      FirstAt(tok, '@', i);
      FirstAt(tok, '@', j);
    }
  }

  // ----- the list

  /** Splitting at a separator loses nothing. */
  lemma {:induction false} JoinSplit(s: string, sep: char)
    ensures Split(s, sep) != [] && Join(Split(s, sep), sep) == s
    ensures forall k | 0 <= k < |Split(s, sep)| :: sep !in Split(s, sep)[k]
    decreases |s|
  {
    var i := Find(s, |s|, sep);
    FindExact(s, |s|, sep);
    if i < |s| {
      JoinSplit(s[i + 1..], sep);
      JoinCons(s[..i], Split(s[i + 1..], sep), sep);
      Mended(s, i, sep);
      assert sep !in s[..i];
    }
  }

  lemma JoinCons(a: string, more: seq<string>, sep: char)
    requires more != []
    ensures Join([a] + more, sep) == a + [sep] + Join(more, sep)
  {
    assert ([a] + more)[1..] == more;
  }

  lemma Mended(s: string, i: nat, sep: char)
    requires i < |s| && s[i] == sep
    ensures s[..i] + [sep] + s[i + 1..] == s
  {
  }

  function NonEmpty(toks: seq<string>): seq<string> {
    if toks == [] then [] else (if toks[0] == "" then [] else [toks[0]]) + NonEmpty(toks[1..])
  }

  /** The tokens stand for the items, one by one. */
  ghost predicate AllDenote(toks: seq<string>, items: seq<Item>) {
    |toks| == |items| && (toks != [] ==> Denotes(toks[0], items[0]) && AllDenote(toks[1..], items[1..]))
  }

  lemma {:induction false} TokensExact(toks: seq<string>, list: seq<NidRange>, items: seq<Item>)
    requires AllDenote(NonEmpty(toks), items)
    ensures ParseTokens(toks, list) == Some(AddAll(list, items))
    decreases |toks|
  {
    if toks != [] {
      if toks[0] == "" {
        assert NonEmpty(toks) == NonEmpty(toks[1..]);
        TokensExact(toks[1..], list, items);
      } else {
        assert NonEmpty(toks)[1..] == NonEmpty(toks[1..]);
        TokenExact(toks[0], items[0]);
        TokensExact(toks[1..], Add(list, items[0]), items[1..]);
      }
    }
  }

  lemma {:induction false} TokensRead(toks: seq<string>, list: seq<NidRange>) returns (items: seq<Item>)
    requires ParseTokens(toks, list).Some?
    ensures AllDenote(NonEmpty(toks), items)
    decreases |toks|
  {
    if toks == [] {
      return [];
    }
    if toks[0] == "" {
      items := TokensRead(toks[1..], list);
      assert NonEmpty(toks) == NonEmpty(toks[1..]);
    } else {
      var item := TokenRead(toks[0]);
      items := TokensRead(toks[1..], Add(list, item));
      OneMoreDenotes(toks[0], NonEmpty(toks[1..]), item, items);
      items := [item] + items;
    }
  }

  lemma TokenRead(tok: string) returns (item: Item)
    requires ParseToken(tok).Some?
    ensures ParseToken(tok) == Some(item) && Denotes(tok, item)
  {
    item := ParseToken(tok).value;
    TokenExact(tok, item);
  }

  lemma OneMoreDenotes(tok: string, toks: seq<string>, item: Item, items: seq<Item>)
    requires Denotes(tok, item) && AllDenote(toks, items)
    ensures AllDenote([tok] + toks, [item] + items)
  {
    var all, more := [tok] + toks, [item] + items;
    assert all[0] == tok && all[1..] == toks && more[0] == item && more[1..] == items;
  }

  lemma {:induction false} AddAllGrows(list: seq<NidRange>, items: seq<Item>)
    ensures |AddAll(list, items)| >= |list| && (AddAll(list, items) == [] <==> list == [] && items == [])
    decreases |items|
  {
    if items != [] {
      AddAllGrows(Add(list, items[0]), items[1..]);
    }
  }

  /**
    cfs_parse_nidlist accepts a text exactly if it has a token and all its tokens are of the syntax;
    the list is then the tokens' items, put together one after the other.
  */
  lemma NidlistExact(s: string, list: seq<NidRange>)
    ensures ParseNidlist(s) == Some(list) <==>
            exists items :: items != [] && AllDenote(NonEmpty(Split(s, ' ')), items) && list == AddAll([], items)
  {
    var toks := Split(s, ' ');
    if ParseNidlist(s) == Some(list) {
      var items := TokensRead(toks, []);
      TokensExact(toks, [], items);
      AddAllGrows([], items);
    }
    if items :| items != [] && AllDenote(NonEmpty(toks), items) && list == AddAll([], items) {
      TokensExact(toks, [], items);
      AddAllGrows([], items);
    }
  }

  // ----- grouping by network

  predicate Same(nr: NidRange, net: nat, num: nat) {
    nr.net == net && nr.num == num
  }

  predicate Names(item: Item, net: nat, num: nat) {
    item.net == net && item.num == num
  }

  /** The address ranges given for the network, in order. */
  function AddrsOf(items: seq<Item>, net: nat, num: nat): seq<Octets> {
    if items == [] then []
    else AddrOf(items[0], net, num) + AddrsOf(items[1..], net, num)
  }

  function AddrOf(item: Item, net: nat, num: nat): (r: seq<Octets>)
    ensures |r| <= 1
  {
    if Names(item, net, num) && item.addr.Some? then [item.addr.value] else []
  }

  predicate StarFor(items: seq<Item>, net: nat, num: nat) {
    items != [] && ((Names(items[0], net, num) && items[0].addr.None?) || StarFor(items[1..], net, num))
  }

  predicate Named(items: seq<Item>, net: nat, num: nat) {
    items != [] && (Names(items[0], net, num) || Named(items[1..], net, num))
  }

  /** The entry of the network, empty if there is none. */
  function EntryOf(list: seq<NidRange>, net: nat, num: nat): NidRange {
    var i := IndexOf(list, net, num);
    if i < |list| then list[i] else NidRange(net, num, false, [])
  }

  lemma {:induction false} IndexFound(list: seq<NidRange>, net: nat, num: nat)
    ensures var i := IndexOf(list, net, num);
            (i < |list| ==> Same(list[i], net, num)) && forall j | 0 <= j < i :: !Same(list[j], net, num)
  {
    if list != [] && !(list[0].net == net && list[0].num == num) {
      IndexFound(list[1..], net, num);
      assert forall j | 1 <= j < IndexOf(list, net, num) :: list[j] == list[1..][j - 1];
    }
  }

  lemma IndexIs(list: seq<NidRange>, net: nat, num: nat, i: nat)
    requires i <= |list| && (i < |list| ==> Same(list[i], net, num)) && forall j | 0 <= j < i :: !Same(list[j], net, num)
    ensures IndexOf(list, net, num) == i
  {
    IndexFound(list, net, num);
  }

  lemma AddExact(list: seq<NidRange>, item: Item, net: nat, num: nat)
    requires Distinct(list)
    ensures Distinct(Add(list, item))
    ensures EntryOf(Add(list, item), net, num) == Entered(EntryOf(list, net, num), item, net, num)
    ensures Listed(Add(list, item), net, num) <==> Listed(list, net, num) || Names(item, net, num)
  {
    var list' := Add(list, item);
    IndexFound(list, item.net, item.num);
    IndexFound(list, net, num);
    var i, j := IndexOf(list, item.net, item.num), IndexOf(list, net, num);
    if Names(item, net, num) {
      IndexIs(list', net, num, i);
    } else if j < |list| {
      IndexIs(list', net, num, j);
    } else {
      IndexIs(list', net, num, |list'|);
    }
  }

  /** What one item makes of the entry of a network. */
  function Entered(e: NidRange, item: Item, net: nat, num: nat): NidRange {
    if !Names(item, net, num) then e
    else if item.addr.None? then e.(all := true)
    else e.(addrs := e.addrs + [item.addr.value])
  }

  lemma Combined(items: seq<Item>, net: nat, num: nat, e: NidRange, next: NidRange, last: NidRange)
    requires items != [] && next == Entered(e, items[0], net, num)
    requires last.addrs == next.addrs + AddrsOf(items[1..], net, num) && (last.all <==> next.all || StarFor(items[1..], net, num))
    ensures last.addrs == e.addrs + AddrsOf(items, net, num) && (last.all <==> e.all || StarFor(items, net, num))
  {
    assert next.addrs == e.addrs + AddrOf(items[0], net, num);
    Regrouped(e.addrs, AddrOf(items[0], net, num), AddrsOf(items[1..], net, num));
  }

  lemma Regrouped<T>(a: seq<T>, b: seq<T>, c: seq<T>)
    ensures (a + b) + c == a + (b + c)
  {
  }

  predicate Listed(list: seq<NidRange>, net: nat, num: nat) {
    IndexOf(list, net, num) < |list|
  }

  lemma {:induction false} AddAllExact(list: seq<NidRange>, items: seq<Item>, net: nat, num: nat)
    requires Distinct(list)
    ensures var r := AddAll(list, items); var e, e' := EntryOf(list, net, num), EntryOf(r, net, num);
            && Distinct(r)
            && e'.addrs == e.addrs + AddrsOf(items, net, num)
            && (e'.all <==> e.all || StarFor(items, net, num))
            && (Listed(r, net, num) <==> Listed(list, net, num) || Named(items, net, num))
    decreases |items|
  {
    if items != [] {
      var next := AddOne(list, items[0], net, num);
      AddAllExact(next, items[1..], net, num);
      Combined(items, net, num, EntryOf(list, net, num), EntryOf(next, net, num), EntryOf(AddAll(next, items[1..]), net, num));
    }
  }

  lemma AddOne(list: seq<NidRange>, item: Item, net: nat, num: nat) returns (next: seq<NidRange>)
    requires Distinct(list)
    ensures next == Add(list, item) && Distinct(next)
    ensures EntryOf(next, net, num) == Entered(EntryOf(list, net, num), item, net, num)
    ensures Listed(next, net, num) <==> Listed(list, net, num) || Names(item, net, num)
  {
    next := Add(list, item);
    AddExact(list, item, net, num);
  }

  /** Tokens are grouped: each network named has one entry, with its address ranges in order and its star. */
  lemma GroupedByNet(items: seq<Item>, net: nat, num: nat)
    ensures var list := AddAll([], items); var e := EntryOf(list, net, num);
            && Distinct(list)
            && ((exists i | 0 <= i < |list| :: Same(list[i], net, num)) <==> Named(items, net, num))
            && e.addrs == AddrsOf(items, net, num) && (e.all <==> StarFor(items, net, num))
  {
    AddAllExact([], items, net, num);
    IndexFound(AddAll([], items), net, num);
  }

  // ----- matching

  /** nf_match_addr of the network. */
  predicate AddrHits(octets: Octets, ip: bool, addr: nat) {
    if ip then HitsUp(addr, octets) && |octets| == 4 else octets != [] && HitSome(octets[0], addr)
  }

  predicate SomeHits(addrs: seq<Octets>, ip: bool, addr: nat) {
    exists i | 0 <= i < |addrs| :: AddrHits(addrs[i], ip, addr)
  }

  /** The entry matches the NID. */
  predicate Covers(nr: NidRange, net: nat, num: nat, addr: nat) {
    Same(nr, net, num) && net < |NETS| && (nr.all || SomeHits(nr.addrs, NETS[net].ip, addr))
  }

  ghost predicate Strided(list: seq<NidRange>) {
    forall i, j | 0 <= i < |list| && 0 <= j < |list[i].addrs| :: OctetsOk(list[i].addrs[j])
  }

  /** cfs_match_nid without netmasks. */
  method MatchNid(list: seq<NidRange>, net: nat, num: nat, addr: nat) returns (r: bool)
    requires Strided(list) && net < |NETS|
    ensures r <==> exists i | 0 <= i < |list| :: Covers(list[i], net, num, addr)
  {
    for i := 0 to |list|
      invariant forall j | 0 <= j < i :: !Covers(list[j], net, num, addr)
    {
      var nr := list[i];
      if nr.net != net || nr.num != num {
        continue;
      }
      if nr.all {
        return true;
      }
      for j := 0 to |nr.addrs|
        invariant forall k | 0 <= k < j :: !AddrHits(nr.addrs[k], NETS[net].ip, addr)
      {
        var hit := MatchAddr(nr.addrs[j], NETS[net].ip, addr);
        if hit {
          return true;
        }
      }
    }
    return false;
  }

  method MatchAddr(octets: Octets, ip: bool, addr: nat) returns (r: bool)
    requires OctetsOk(octets)
    ensures r <==> AddrHits(octets, ip, addr)
  {
    if ip {
      r := IpAddrMatch(addr, octets);
    } else if octets == [] {
      r := false;
    } else {
      r := ExprListMatch(addr, octets[0]);
    }
  }

  /** The token itself matches the NID: its network, and all addresses or one of its range. */
  predicate Means(item: Item, net: nat, num: nat, addr: nat) {
    Names(item, net, num) && net < |NETS| && (item.addr.None? || AddrHits(item.addr.value, NETS[net].ip, addr))
  }

  /** A NID matches the list that was made exactly if it matches one of the tokens it was made from. */
  lemma MeaningKept(items: seq<Item>, net: nat, num: nat, addr: nat)
    ensures (exists i | 0 <= i < |AddAll([], items)| :: Covers(AddAll([], items)[i], net, num, addr)) <==>
            (exists i | 0 <= i < |items| :: Means(items[i], net, num, addr))
  {
    var list := AddAll([], items);
    GroupedByNet(items, net, num);
    AddAllExact([], items, net, num);
    IndexFound(list, net, num);
    var k := IndexOf(list, net, num);
    assert net >= |NETS| ==> forall i | 0 <= i < |items| :: !Means(items[i], net, num, addr);
    assert net >= |NETS| ==> forall i | 0 <= i < |list| :: !Covers(list[i], net, num, addr);
    if net < |NETS| {
      AddrsMean(items, net, num, addr);
      if k < |list| {
        assert list[k].addrs == AddrsOf(items, net, num);
        OnlyEntry(list, net, num, k, addr);
      } else {
        assert forall i | 0 <= i < |list| :: !Same(list[i], net, num);
        NotNamed(items, net, num, addr);
      }
    }
  }

  lemma {:induction false} NotNamed(items: seq<Item>, net: nat, num: nat, addr: nat)
    requires !Named(items, net, num)
    ensures forall i | 0 <= i < |items| :: !Means(items[i], net, num, addr)
  {
    if items != [] {
      NotNamed(items[1..], net, num, addr);
      assert forall i | 1 <= i < |items| :: items[i] == items[1..][i - 1];
    }
  }

  lemma OnlyEntry(list: seq<NidRange>, net: nat, num: nat, k: nat, addr: nat)
    requires Distinct(list) && k < |list| && Same(list[k], net, num) && net < |NETS|
    ensures (exists i | 0 <= i < |list| :: Covers(list[i], net, num, addr)) <==>
            list[k].all || SomeHits(list[k].addrs, NETS[net].ip, addr)
  {
    if i :| 0 <= i < |list| && Covers(list[i], net, num, addr) {
      assert i == k;
    }
    assert Covers(list[k], net, num, addr) <==> list[k].all || SomeHits(list[k].addrs, NETS[net].ip, addr);
  }

  lemma {:induction false} AddrsMean(items: seq<Item>, net: nat, num: nat, addr: nat)
    requires net < |NETS|
    ensures (exists i | 0 <= i < |items| :: Means(items[i], net, num, addr)) <==>
            StarFor(items, net, num) || SomeHits(AddrsOf(items, net, num), NETS[net].ip, addr)
  {
    if items != [] {
      AddrsMean(items[1..], net, num, addr);
      MeansShifted(items, net, num, addr);
      HitsShifted(AddrOf(items[0], net, num), AddrsOf(items[1..], net, num), NETS[net].ip, addr);
    }
  }

  lemma MeansShifted(items: seq<Item>, net: nat, num: nat, addr: nat)
    requires items != []
    ensures (exists i | 0 <= i < |items| :: Means(items[i], net, num, addr)) <==>
            Means(items[0], net, num, addr) || exists i | 0 <= i < |items[1..]| :: Means(items[1..][i], net, num, addr)
  {
    if i :| 0 <= i < |items| && Means(items[i], net, num, addr) {
      assert i > 0 ==> items[i] == items[1..][i - 1];
    }
    if i :| 0 <= i < |items[1..]| && Means(items[1..][i], net, num, addr) {
      assert items[i + 1] == items[1..][i];
    }
  }

  lemma HitsShifted(first: seq<Octets>, more: seq<Octets>, ip: bool, addr: nat)
    requires |first| <= 1
    ensures SomeHits(first + more, ip, addr) <==> SomeHits(first, ip, addr) || SomeHits(more, ip, addr)
    ensures first != [] ==> (SomeHits(first, ip, addr) <==> AddrHits(first[0], ip, addr))
  {
    var all := first + more;
    if i :| 0 <= i < |all| && AddrHits(all[i], ip, addr) {
      assert i < |first| ==> all[i] == first[i];
      assert i >= |first| ==> all[i] == more[i - |first|];
    }
    if i :| 0 <= i < |first| && AddrHits(first[i], ip, addr) {
      assert all[i] == first[i];
    }
    if i :| 0 <= i < |more| && AddrHits(more[i], ip, addr) {
      assert all[i + |first|] == more[i];
    }
  }
}
