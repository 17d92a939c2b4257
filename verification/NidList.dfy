/**
  Lists of NID ranges as text (lib/libcfs/nidstrings.c): "<addresses>@<network>" tokens separated by
  blanks, grouped by network when they are read. Netmasks are not part of the model.
*/
module NidList {
  import opened Collections
  import opened Machine
  import opened Numerals
  import opened AddrRange
  import opened RangeExpr

  const MAX_NUMERIC_VALUE: nat := 0xFFFF_FFFF

  /** An entry of libcfs_netstrfns; `ip` tells dotted addresses from plain numbers. */
  datatype Net = Net(name: string, ip: bool)

  const NETS: seq<Net> := [
    Net("lo", false), Net("tcp", true), Net("o2ib", true), Net("gni", false), Net("gip", true),
    Net("ptlf", false), Net("kfi", false), Net("efa", true), Net("bxi3f", false)]

  /** struct nidrange: the network, its number, whether all addresses are meant, the address ranges. */
  datatype NidRange = NidRange(net: nat, num: nat, all: bool, addrs: seq<Octets>)

  // ----- addresses

  function OctetParser(): Lstr -> Option<seq<Expr>> {
    (tok: Lstr) => if tok.len <= |tok.text| then ParseList(tok, 0, 255) else None
  }

  /** cfs_ip_addr_parse and libcfs_num_parse. */
  function ParseAddr(s: string, ip: bool): Option<Octets> {
    if ip then
      var r := ParseItems(Some(Lstr(s, |s|)), '.', OctetParser());
      if r.Some? && |r.value| == 4 then r else None
    else
      var r := ParseList(Lstr(s, |s|), 0, MAX_NUMERIC_VALUE);
      if r.None? then None else Some([r.value])
  }

  function ListTexts(octets: Octets): (r: seq<string>)
    ensures |r| == |octets| && forall k | 0 <= k < |r| :: r[k] == PrintList(octets[k])
  {
    seq(|octets|, k requires 0 <= k < |octets| => PrintList(octets[k]))
  }

  /** libcfs_ip_addr_range_print and libcfs_num_addr_range_print. */
  function PrintAddr(octets: Octets): string {
    Join(ListTexts(octets), '.')
  }

  ghost predicate AddrOk(octets: Octets, ip: bool) {
    if ip then |octets| == 4 && forall k | 0 <= k < 4 :: ListOk(octets[k], 0, 255)
    else |octets| == 1 && ListOk(octets[0], 0, MAX_NUMERIC_VALUE)
  }

  predicate ListChar(c: char) {
    ExprChar(c) || c == '[' || c == ']' || c == ','
  }

  /** A '/' has a ']' somewhere behind it. */
  predicate SlashClosed(s: string) {
    forall i | 0 <= i < |s| && s[i] == '/' :: ']' in s[i..]
  }

  lemma {:induction false} JoinChars(items: seq<string>, sep: char)
    requires items != [] && forall k | 0 <= k < |items| :: items[k] != "" && forall i | 0 <= i < |items[k]| :: ListChar(items[k][i])
    ensures Join(items, sep) != ""
    ensures forall i | 0 <= i < |Join(items, sep)| :: ListChar(Join(items, sep)[i]) || Join(items, sep)[i] == sep
    ensures ListChar(Join(items, sep)[0])
  {
    assert items[0] != "";
    if |items| > 1 {
      JoinChars(items[1..], sep);
    }
  }

  lemma ListTextChars(es: seq<Expr>)
    requires es != []
    ensures PrintList(es) != "" && forall i | 0 <= i < |PrintList(es)| :: ListChar(PrintList(es)[i])
    ensures SlashClosed(PrintList(es))
  {
    var text := PrintList(es);
    TextChars(es[0]);
    if |es| > 1 {
      forall k | 0 <= k < |es|
        ensures ExprText(es[k]) != "" && forall i | 0 <= i < |ExprText(es[k])| :: ListChar(ExprText(es[k])[i])
      {
        TextChars(es[k]);
      }
      JoinChars(ExprTexts(es), ',');
    }
    if |es| > 1 || es[0].lo != es[0].hi {
      assert text[|text| - 1] == ']';
      assert forall i | 0 <= i < |text| :: text[i..][|text| - 1 - i] == ']';
    } else {
      PrintedDigits(es[0].lo);
    }
  }

  lemma OctetsRead(octets: Octets)
    requires forall k | 0 <= k < |octets| :: ListOk(octets[k], 0, 255)
    ensures AllRead(OctetParser(), '.', ListTexts(octets), octets)
  {
    forall k | 0 <= k < |octets|
      ensures Solid(PrintList(octets[k])) && '.' !in PrintList(octets[k])
      ensures ReadsAs(OctetParser(), PrintList(octets[k]), octets[k])
    {
      assert ListOk(octets[k], 0, 255);
      ListTextChars(octets[k]);
      ListReads(octets[k]);
    }
  }

  lemma ListReads(es: seq<Expr>)
    requires ListOk(es, 0, 255)
    ensures ReadsAs(OctetParser(), PrintList(es), es)
  {
    var a := PrintList(es);
    forall rest: string | Ends(rest)
      ensures OctetParser()(Lstr(a + rest, |a|)) == Some(es)
    {
      ListTrip(es, rest, 0, 255);
    }
  }

  /** Parsing a printed address range gives it back. */
  lemma AddrTrip(octets: Octets, ip: bool)
    requires AddrOk(octets, ip)
    ensures ParseAddr(PrintAddr(octets), ip) == Some(octets)
  {
    var s := PrintAddr(octets);
    assert s + "" == s;
    if ip {
      OctetsRead(octets);
      ItemsTrip(ListTexts(octets), octets, '.', OctetParser(), "");
    } else {
      ListTrip(octets[0], "", 0, MAX_NUMERIC_VALUE);
      assert octets == [octets[0]];
    }
  }

  lemma {:induction false} JoinClosed(items: seq<string>, sep: char)
    requires sep != '/' && forall k | 0 <= k < |items| :: SlashClosed(items[k])
    ensures SlashClosed(Join(items, sep))
  {
    if |items| > 1 {
      JoinClosed(items[1..], sep);
      var a, b := items[0], Join(items[1..], sep);
      var s := a + [sep] + b;
      forall i | 0 <= i < |s| && s[i] == '/'
        ensures ']' in s[i..]
      {
        if i < |a| {
          assert ']' in a[i..];
          assert s[i..] == a[i..] + [sep] + b;
        } else {
          assert s[i..] == b[i - |a| - 1..];
        }
      }
    }
  }

  lemma AddrChars(octets: Octets, ip: bool)
    requires AddrOk(octets, ip)
    ensures PrintAddr(octets) != "" && SlashClosed(PrintAddr(octets))
    ensures forall i | 0 <= i < |PrintAddr(octets)| :: ListChar(PrintAddr(octets)[i]) || PrintAddr(octets)[i] == '.'
  {
    forall k | 0 <= k < |octets|
      ensures ListTexts(octets)[k] != "" && SlashClosed(ListTexts(octets)[k])
      ensures forall i | 0 <= i < |ListTexts(octets)[k]| :: ListChar(ListTexts(octets)[k][i])
    {
      ListTextChars(octets[k]);
    }
    JoinChars(ListTexts(octets), '.');
    JoinClosed(ListTexts(octets), '.');
  }

  // ----- networks

  predicate StartsWith(s: string, name: string) {
    |name| <= |s| && s[..|name|] == name
  }

  /** libcfs_namenum2netstrfns: the first table entry at or after i whose name begins the string. */
  function FindNet(s: string, i: nat): (r: Option<nat>)
    requires i <= |NETS|
    ensures r.Some? ==> r.value < |NETS| && StartsWith(s, NETS[r.value].name)
    decreases |NETS| - i
  {
    if i == |NETS| then None else if StartsWith(s, NETS[i].name) then Some(i) else FindNet(s, i + 1)
  }

  /** The network part of add_nidrange. */
  function ParseNet(s: string): Option<(nat, nat)> {
    var net := FindNet(s, 0);
    if net.None? then None
    else
      var end := s[|NETS[net.value].name|..];
      if end == "" then Some((net.value, 0))
      else
        var num := Str2Num(Lstr(end, |end|), 0, MAX_NUMERIC_VALUE);
        if num.0 then Some((net.value, num.1)) else None
  }

  /** cfs_print_network without the '@'. */
  function PrintNet(net: nat, num: nat): string
    requires net < |NETS|
  {
    NETS[net].name + if num == 0 then "" else PrintNum(num)
  }

  /** No two names begin alike, so the name that was printed is the one found. */
  lemma NameFound(net: nat, s: string)
    requires net < |NETS|
    ensures FindNet(NETS[net].name + s, 0) == Some(net)
  {
    var text := NETS[net].name + s;
    FirstTwo(net, text);
    FindFrom(net, text, 0);
  }

  /** The first two characters already tell the networks apart. */
  lemma FirstTwo(net: nat, text: string)
    requires net < |NETS| && StartsWith(text, NETS[net].name)
    ensures forall i | 0 <= i < |NETS| && i != net :: !StartsWith(text, NETS[i].name)
  {
    forall i | 0 <= i < |NETS| && StartsWith(text, NETS[i].name)
      ensures i == net
    {
      assert NETS[net].name[0] == text[0] && NETS[net].name[1] == text[1];
      assert NETS[i].name[0] == text[0] && NETS[i].name[1] == text[1];
    }
  }

  lemma {:induction false} FindFrom(net: nat, text: string, i: nat)
    requires i <= net < |NETS| && StartsWith(text, NETS[net].name)
    requires forall j | 0 <= j < |NETS| && j != net :: !StartsWith(text, NETS[j].name)
    ensures FindNet(text, i) == Some(net)
    decreases net - i
  {
    if i < net {
      FindFrom(net, text, i + 1);
    }
  }

  lemma NetTrip(net: nat, num: nat)
    requires net < |NETS| && num < TWO_32
    ensures ParseNet(PrintNet(net, num)) == Some((net, num))
  {
    var tail := if num == 0 then "" else PrintNum(num);
    NameFound(net, tail);
    assert PrintNet(net, num)[|NETS[net].name|..] == tail;
    if num != 0 {
      NumberToken(num, "", 0, MAX_NUMERIC_VALUE);
      assert tail + "" == tail;
    }
  }

  // ----- tokens

  /** strsep by one character: the pieces, empty ones included. */
  function Split(s: string, sep: char): seq<string>
    decreases |s|
  {
    var i := Find(s, |s|, sep);
    if i == |s| then [s] else [s[..i]] + Split(s[i + 1..], sep)
  }

  lemma {:induction false} SplitJoin(items: seq<string>, sep: char)
    requires items != [] && forall k | 0 <= k < |items| :: sep !in items[k]
    ensures Split(Join(items, sep), sep) == items
  {
    var a := items[0];
    if |items| == 1 {
      FindIn(a, "", |a|, sep);
      assert a + "" == a;
      assert items == [a];
    } else {
      var b := Join(items[1..], sep);
      var s := a + [sep] + b;
      assert s == a + ([sep] + b);
      FindIn(a, [sep] + b, |s|, sep);
      assert s[..|a|] == a && s[|a| + 1..] == b;
      SplitJoin(items[1..], sep);
      assert items == [a] + items[1..];
    }
  }

  /** strim. */
  function Strim(s: string): string {
    var t := s[LeadSpaces(s, |s|)..];
    if t == "" then "" else t[..TrimEnd(t, |t|)]
  }

  /** The place of the network in the list, or the length of the list. */
  function IndexOf(list: seq<NidRange>, net: nat, num: nat): (i: nat)
    ensures i <= |list|
  {
    if list == [] || (list[0].net == net && list[0].num == num) then 0 else 1 + IndexOf(list[1..], net, num)
  }

  /** What one token adds: all addresses of a network, or one more address range. */
  datatype Item = Item(net: nat, num: nat, addr: Option<Octets>)

  /** add_nidrange and the entry made for the addresses. */
  function Add(list: seq<NidRange>, item: Item): seq<NidRange> {
    var i := IndexOf(list, item.net, item.num);
    var nr := if i < |list| then list[i] else NidRange(item.net, item.num, false, []);
    var nr' := if item.addr.None? then nr.(all := true) else nr.(addrs := nr.addrs + [item.addr.value]);
    if i < |list| then list[i := nr'] else list + [nr']
  }

  /** An address with ':' or with a '/' that no ']' follows is a netmask. */
  predicate IsNetmask(s: string) {
    ':' in s || (var i := Find(s, |s|, '/'); i < |s| && ']' !in s[i..])
  }

  /** The address and the network of a token; there must be exactly one '@' and a network. */
  function CutToken(tok: string): Option<(string, string)> {
    var at := Find(tok, |tok|, '@');
    if at == |tok| then None else Parts(tok[..at], Strim(tok[at + 1..]))
  }

  function Parts(addr: string, net: string): Option<(string, string)> {
    if '@' in net || net == "" then None else Some((addr, net))
  }

  /** The addresses of network `where`; netmasks are refused here. */
  function ParseWhere(addr: string, where: (nat, nat)): Option<Item> {
    if where.0 >= |NETS| || IsNetmask(addr) then None
    else if addr == "*" then Some(Item(where.0, where.1, None))
    else
      var r := ParseAddr(addr, NETS[where.0].ip);
      if r.None? then None else Some(Item(where.0, where.1, r))
  }

  /** parse_nidrange. */
  function ParseToken(tok: string): Option<Item> {
    var parts := CutToken(tok);
    if parts.None? then None
    else
      var where := ParseNet(parts.value.1);
      if where.None? then None else ParseWhere(parts.value.0, where.value)
  }

  function ParseTokens(toks: seq<string>, list: seq<NidRange>): Option<seq<NidRange>> {
    if toks == [] then Some(list)
    else if toks[0] == "" then ParseTokens(toks[1..], list)
    else
      var item := ParseToken(toks[0]);
      if item.None? then None else ParseTokens(toks[1..], Add(list, item.value))
  }

  /** cfs_parse_nidlist. */
  function ParseNidlist(s: string): Option<seq<NidRange>> {
    var r := ParseTokens(Split(s, ' '), []);
    if r == Some([]) then None else r
  }

  // ----- printing

  function PrintItem(item: Item): string
    requires item.net < |NETS|
  {
    AddrText(item) + "@" + PrintNet(item.net, item.num)
  }

  function AddrItems(net: nat, num: nat, addrs: seq<Octets>): (r: seq<Item>)
    ensures |r| == |addrs| && forall i | 0 <= i < |r| :: r[i] == Item(net, num, Some(addrs[i]))
  {
    seq(|addrs|, i requires 0 <= i < |addrs| => Item(net, num, Some(addrs[i])))
  }

  /** What is printed for one network: the star alone, or one token for each address range. */
  function RangeItems(nr: NidRange): seq<Item> {
    if nr.all then [Item(nr.net, nr.num, None)] else AddrItems(nr.net, nr.num, nr.addrs)
  }

  function ListItems(list: seq<NidRange>): seq<Item> {
    if list == [] then [] else RangeItems(list[0]) + ListItems(list[1..])
  }

  ghost predicate ItemOk(item: Item) {
    && item.net < |NETS| && item.num < TWO_32
    && (item.addr.Some? ==> AddrOk(item.addr.value, NETS[item.net].ip))
  }

  function ItemTexts(items: seq<Item>): (r: seq<string>)
    requires forall i | 0 <= i < |items| :: items[i].net < |NETS|
    ensures |r| == |items| && forall i | 0 <= i < |items| :: r[i] == PrintItem(items[i])
  {
    seq(|items|, i requires 0 <= i < |items| => PrintItem(items[i]))
  }

  ghost predicate Distinct(list: seq<NidRange>) {
    forall i, j | 0 <= i < j < |list| :: list[i].net != list[j].net || list[i].num != list[j].num
  }

  /** A network is named once, and has a star or address ranges but not both. */
  ghost predicate ListWellFormed(list: seq<NidRange>) {
    && list != []
    && Distinct(list)
    && RangesOk(list)
  }

  ghost predicate RangesOk(list: seq<NidRange>) {
    forall i | 0 <= i < |list| :: RangeOk(list[i])
  }

  ghost predicate RangeOk(nr: NidRange) {
    && nr.net < |NETS| && nr.num < TWO_32
    && (nr.all <==> nr.addrs == [])
    && (forall i | 0 <= i < |nr.addrs| :: AddrOk(nr.addrs[i], NETS[nr.net].ip))
  }

  lemma {:induction false} ItemsOk(list: seq<NidRange>)
    requires forall i | 0 <= i < |list| :: RangeOk(list[i])
    ensures forall i | 0 <= i < |ListItems(list)| :: ItemOk(ListItems(list)[i])
    ensures list != [] ==> ListItems(list) != []
  {
    if list != [] {
      ItemsOk(list[1..]);
      assert RangeOk(list[0]);
    }
  }

  /** cfs_print_nidlist into a buffer that is large enough. */
  function PrintNidlist(list: seq<NidRange>): string
    requires forall i | 0 <= i < |ListItems(list)| :: ListItems(list)[i].net < |NETS|
  {
    Join(ItemTexts(ListItems(list)), ' ')
  }

  // ----- the round trip

  lemma NetChars(net: nat, num: nat)
    requires net < |NETS|
    ensures Solid(PrintNet(net, num)) && '@' !in PrintNet(net, num) && ' ' !in PrintNet(net, num)
  {
    if num != 0 {
      NumSolid(num);
    }
    assert Solid(NETS[net].name) && '@' !in NETS[net].name;
  }

  lemma StrimSolid(s: string)
    requires Solid(s)
    ensures Strim(s) == s
  {
    assert LeadSpaces(s, |s|) == 0;
    assert s[0..] == s;
  }

  function AddrText(item: Item): string {
    if item.addr.None? then "*" else PrintAddr(item.addr.value)
  }

  lemma {:induction false} FoundAt(s: string, c: char)
    ensures var i := Find(s, |s|, c); i < |s| ==> s[i] == c
  {
    if s != "" && s[0] != c {
      FoundAt(s[1..], c);
    }
  }

  lemma NotNetmask(s: string)
    requires SlashClosed(s) && ':' !in s
    ensures !IsNetmask(s)
  {
    FoundAt(s, '/');
  }

  /** The address part of a token: no '@' or blank in it, and never taken for a netmask. */
  lemma AddrPart(item: Item)
    requires ItemOk(item)
    ensures var addr := AddrText(item);
            addr != "" && '@' !in addr && ' ' !in addr && ':' !in addr && SlashClosed(addr) && (addr == "*" <==> item.addr.None?)
  {
    if item.addr.Some? {
      AddrChars(item.addr.value, NETS[item.net].ip);
      NoOthers(PrintAddr(item.addr.value));
    }
  }

  lemma NoOthers(s: string)
    requires s != "" && forall i | 0 <= i < |s| :: ListChar(s[i]) || s[i] == '.'
    ensures '@' !in s && ' ' !in s && ':' !in s && s[0] != '*'
  {
  }

  lemma WhereTrip(item: Item)
    requires ItemOk(item)
    ensures ParseWhere(AddrText(item), (item.net, item.num)) == Some(item)
  {
    AddrPart(item);
    NotNetmask(AddrText(item));
    if item.addr.Some? {
      AddrTrip(item.addr.value, NETS[item.net].ip);
    }
  }

  lemma CutTrip(addr: string, net: string)
    requires '@' !in addr && '@' !in net && Solid(net)
    ensures CutToken(addr + "@" + net) == Some((addr, net))
  {
    var tok := addr + "@" + net;
    assert tok == addr + ("@" + net);
    FindIn(addr, "@" + net, |tok|, '@');
    assert tok[..|addr|] == addr && tok[|addr| + 1..] == net;
    StrimSolid(net);
  }

  lemma TokenTrip(item: Item)
    requires ItemOk(item)
    ensures ParseToken(PrintItem(item)) == Some(item)
  {
    AddrPart(item);
    NetChars(item.net, item.num);
    CutTrip(AddrText(item), PrintNet(item.net, item.num));
    NetTrip(item.net, item.num);
    WhereTrip(item);
  }

  lemma TokenChars(item: Item)
    requires ItemOk(item)
    ensures PrintItem(item) != "" && ' ' !in PrintItem(item)
  {
    AddrPart(item);
    NetChars(item.net, item.num);
  }

  function AddAll(list: seq<NidRange>, items: seq<Item>): seq<NidRange>
    decreases |items|
  {
    if items == [] then list else AddAll(Add(list, items[0]), items[1..])
  }

  lemma {:induction false} TokensTrip(items: seq<Item>, list: seq<NidRange>)
    requires forall i | 0 <= i < |items| :: ItemOk(items[i])
    ensures forall i | 0 <= i < |items| :: items[i].net < |NETS|
    ensures ParseTokens(ItemTexts(items), list) == Some(AddAll(list, items))
    decreases |items|
  {
    assert forall i | 0 <= i < |items| :: ItemOk(items[i]) ==> items[i].net < |NETS|;
    if items != [] {
      TokenTrip(items[0]);
      TokenChars(items[0]);
      TokensStep(ItemTexts(items), items[0], list);
      assert ItemTexts(items)[1..] == ItemTexts(items[1..]);
      TokensTrip(items[1..], Add(list, items[0]));
    }
  }

  lemma TokensStep(toks: seq<string>, item: Item, list: seq<NidRange>)
    requires toks != [] && toks[0] != "" && ParseToken(toks[0]) == Some(item)
    ensures ParseTokens(toks, list) == ParseTokens(toks[1..], Add(list, item))
  {
  }

  lemma {:induction false} AddAllConcat(list: seq<NidRange>, a: seq<Item>, b: seq<Item>)
    ensures AddAll(list, a + b) == AddAll(AddAll(list, a), b)
    decreases |a|
  {
    if a == [] {
      assert a + b == b;
    } else {
      assert (a + b)[1..] == a[1..] + b;
      AddAllConcat(Add(list, a[0]), a[1..], b);
    }
  }

  ghost predicate Lacks(list: seq<NidRange>, net: nat, num: nat) {
    forall i | 0 <= i < |list| :: list[i].net != net || list[i].num != num
  }

  lemma {:induction false} IndexAfter(pre: seq<NidRange>, post: seq<NidRange>, net: nat, num: nat)
    requires Lacks(pre, net, num) && (post == [] || (post[0].net == net && post[0].num == num))
    ensures IndexOf(pre + post, net, num) == |pre|
  {
    if pre == [] {
      assert pre + post == post;
    } else {
      assert (pre + post)[1..] == pre[1..] + post;
      IndexAfter(pre[1..], post, net, num);
    }
  }

  /** The address tokens of one network rebuild its entry at the end of the list. */
  lemma {:induction false} AddrsRebuilt(pre: seq<NidRange>, nr: NidRange, j: nat)
    requires Lacks(pre, nr.net, nr.num) && !nr.all && 1 <= j <= |nr.addrs|
    ensures AddAll(pre + [nr.(addrs := nr.addrs[..j])], AddrItems(nr.net, nr.num, nr.addrs[j..])) == pre + [nr]
    decreases |nr.addrs| - j
  {
    var cur := nr.(addrs := nr.addrs[..j]);
    if j == |nr.addrs| {
      assert nr.addrs[..j] == nr.addrs;
    } else {
      var items := AddrItems(nr.net, nr.num, nr.addrs[j..]);
      IndexAfter(pre, [cur], nr.net, nr.num);
      assert nr.addrs[..j] + [nr.addrs[j]] == nr.addrs[..j + 1];
      assert Add(pre + [cur], items[0]) == pre + [nr.(addrs := nr.addrs[..j + 1])];
      assert items[1..] == AddrItems(nr.net, nr.num, nr.addrs[j + 1..]);
      AddrsRebuilt(pre, nr, j + 1);
    }
  }

  lemma RangeRebuilt(pre: seq<NidRange>, nr: NidRange)
    requires Lacks(pre, nr.net, nr.num) && RangeOk(nr)
    ensures AddAll(pre, RangeItems(nr)) == pre + [nr]
  {
    IndexAfter(pre, [], nr.net, nr.num);
    assert pre + [] == pre;
    var items := RangeItems(nr);
    if nr.all {
      assert items[1..] == [];
    } else {
      assert [] + [nr.addrs[0]] == nr.addrs[..1];
      assert Add(pre, items[0]) == pre + [nr.(addrs := nr.addrs[..1])];
      assert items[1..] == AddrItems(nr.net, nr.num, nr.addrs[1..]);
      AddrsRebuilt(pre, nr, 1);
    }
  }

  lemma LacksNext(pre: seq<NidRange>, list: seq<NidRange>)
    requires Distinct(pre + list) && list != []
    ensures Lacks(pre, list[0].net, list[0].num)
  {
    forall i | 0 <= i < |pre|
      ensures pre[i].net != list[0].net || pre[i].num != list[0].num
    {
      assert (pre + list)[i] == pre[i] && (pre + list)[|pre|] == list[0];
    }
  }

  lemma Shift(pre: seq<NidRange>, list: seq<NidRange>)
    requires list != []
    ensures pre + [list[0]] + list[1..] == pre + list
  {
  }

  lemma NextRebuilt(pre: seq<NidRange>, nr: NidRange, more: seq<Item>)
    requires Lacks(pre, nr.net, nr.num) && RangeOk(nr)
    ensures AddAll(pre, RangeItems(nr) + more) == AddAll(pre + [nr], more)
  {
    AddAllConcat(pre, RangeItems(nr), more);
    RangeRebuilt(pre, nr);
  }

  lemma {:induction false} ListRebuilt(pre: seq<NidRange>, list: seq<NidRange>)
    requires Distinct(pre + list) && RangesOk(list)
    ensures AddAll(pre, ListItems(list)) == pre + list
    decreases |list|
  {
    if list == [] {
      assert pre + list == pre;
    } else {
      var nr := list[0];
      LacksNext(pre, list);
      NextRebuilt(pre, nr, ListItems(list[1..]));
      Shift(pre, list);
      ListRebuilt(pre + [nr], list[1..]);
    }
  }

  /** Printing a list of NID ranges and parsing the text gives the same list. */
  lemma NidlistTrip(list: seq<NidRange>)
    requires ListWellFormed(list)
    ensures forall i | 0 <= i < |ListItems(list)| :: ListItems(list)[i].net < |NETS|
    ensures ParseNidlist(PrintNidlist(list)) == Some(list)
  {
    var items := ListItems(list);
    ItemsOk(list);
    forall i | 0 <= i < |items|
      ensures ' ' !in ItemTexts(items)[i]
    {
      TokenChars(items[i]);
    }
    SplitJoin(ItemTexts(items), ' ');
    TokensTrip(items, []);
    assert [] + list == list;
    ListRebuilt([], list);
  }
}
