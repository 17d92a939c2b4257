/**
  Range expressions as text (lib/libcfs/string.c): cfs_gettok, cfs_range_expr_parse,
  cfs_expr_list_parse and the printers, and the round trip between them.
*/
module RangeExpr {
  import opened Collections
  import opened Machine
  import opened Numerals
  import opened AddrRange

  // ----- tokens

  /** The first place of c among the first n characters, n if there is none. */
  function Find(s: string, n: nat, c: char): (i: nat)
    requires n <= |s|
    ensures i <= n
  {
    if n == 0 || s[0] == c then 0 else 1 + Find(s[1..], n - 1, c)
  }

  /** The length of s[..n] without white space at its end; the first character always stays. */
  function TrimEnd(s: string, n: nat): (k: nat)
    requires 1 <= n <= |s|
    ensures 1 <= k <= n
  {
    if n == 1 || !IsSpace(s[n - 1]) then n else TrimEnd(s, n - 1)
  }

  /** Result of cfs_gettok: a null `next` means the input is used up. */
  datatype Tok = Tok(ok: bool, next: Option<Lstr>, tok: Lstr)

  ghost predicate ValidSrc(src: Option<Lstr>) {
    src.Some? ==> src.value.len <= |src.value.text|
  }

  /** cfs_gettok where no white space is in front. */
  function TokenAt(s: string, n: nat, delim: char): (r: Tok)
    requires n <= |s|
    ensures ValidSrc(r.next) && r.tok.len <= |r.tok.text|
    ensures r.ok ==> (r.next.Some? ==> r.next.value.len < n) && 1 <= r.tok.len <= n
  {
    if n == 0 || s[0] == delim then Tok(false, Some(Lstr(s, n)), Lstr("", 0))
    else
      var e := Find(s, n, delim);
      Tok(true, if e == n then None else Some(Lstr(s[e + 1..], n - e - 1)), Lstr(s, TrimEnd(s, e)))
  }

  /** cfs_gettok. */
  function Gettok(src: Option<Lstr>, delim: char): (r: Tok)
    requires ValidSrc(src)
    ensures ValidSrc(r.next) && r.tok.len <= |r.tok.text|
    ensures r.ok ==> src.Some? && (r.next.Some? ==> r.next.value.len < src.value.len) && 1 <= r.tok.len <= src.value.len
  {
    if src.None? then Tok(false, None, Lstr("", 0))
    else
      var k := LeadSpaces(src.value.text, src.value.len);
      TokenAt(src.value.text[k..], src.value.len - k, delim)
  }

  /** The cursor cfs_gettok advances. */
  class Cursor {
    var src: Option<Lstr>

    constructor (text: string, len: nat)
      requires len <= |text|
      ensures src == Some(Lstr(text, len))
    {
      src := Some(Lstr(text, len));
    }

    /** cfs_gettok, with its loops. */
    method Next(delim: char) returns (ok: bool, tok: Lstr)
      requires ValidSrc(src)
      modifies this
      ensures Tok(ok, src, tok) == Gettok(old(src), delim) && ValidSrc(src)
    {
      if src.None? {
        return false, Lstr("", 0);
      }
      var s, n := SkipSpaces(src.value.text, src.value.len);
      src := Some(Lstr(s, n));
      if n == 0 || s[0] == delim {
        return false, Lstr("", 0);
      }
      var e := FindFirst(s, n, delim);
      src := if e == n then None else Some(Lstr(s[e + 1..], n - e - 1));
      e := TrimSpaces(s, e);
      return true, Lstr(s, e);
    }
  }

  /** The loop over leading white space. */
  method SkipSpaces(text: string, len: nat) returns (s: string, n: nat)
    requires len <= |text|
    ensures var k := LeadSpaces(text, len); s == text[k..] && n == len - k
  {
    s, n := text, len;
    ghost var k := 0;
    while n > 0 && IsSpace(s[0])
      invariant 0 <= k <= len && n == len - k && s == text[k..]
      invariant LeadSpaces(text, len) == k + LeadSpaces(s, n)
      decreases n
    {
      s, n, k := s[1..], n - 1, k + 1;
    }
  }

  /** The loop over white space before the delimiter. */
  method TrimSpaces(s: string, end: nat) returns (e: nat)
    requires 1 <= end <= |s|
    ensures e == TrimEnd(s, end)
  {
    e := end;
    while e > 1 && IsSpace(s[e - 1])
      invariant 1 <= e <= end && TrimEnd(s, e) == TrimEnd(s, end)
    {
      e := e - 1;
    }
  }

  /** memchr. */
  method FindFirst(s: string, n: nat, c: char) returns (i: nat)
    requires n <= |s|
    ensures i == Find(s, n, c)
  {
    i := 0;
    while i < n && s[i] != c
      invariant i <= n && Find(s, n, c) == i + Find(s[i..], n - i, c)
    {
      i := i + 1;
    }
  }

  // ----- parsing

  function Finish(lo: nat, hi: nat, stride: nat): Option<Expr> {
    if lo > hi then None else Some(Expr(lo, hi, stride))
  }

  /** After "<lo>-<hi>/": whatever is stored for the stride is kept, even if the check rejects it. */
  function AfterSlash(lo: nat, stored: nat, g: Tok, min: nat, max: nat): Option<Expr>
    requires ValidSrc(g.next) && g.tok.len <= |g.tok.text|
  {
    if !g.ok then Finish(lo, stored, 0)
    else
      var hi := Str2Num(g.tok, min, max);
      if !hi.0 || g.next.None? then None
      else Finish(lo, hi.1, Str2Num(g.next.value, min, max).1)
  }

  /** After "<lo>-". */
  function AfterDash(lo: nat, src: Lstr, min: nat, max: nat): Option<Expr>
    requires src.len <= |src.text|
  {
    var hi := Str2Num(src, min, max);
    if hi.0 then Finish(lo, hi.1, 1) else AfterSlash(lo, hi.1, Gettok(Some(src), '/'), min, max)
  }

  function AfterLow(g: Tok, min: nat, max: nat): Option<Expr>
    requires ValidSrc(g.next) && g.tok.len <= |g.tok.text|
  {
    if !g.ok then None
    else
      var lo := Str2Num(g.tok, min, max);
      if !lo.0 || g.next.None? then None else AfterDash(lo.1, g.next.value, min, max)
  }

  /** cfs_range_expr_parse. */
  function ParseExpr(src: Lstr, min: nat, max: nat, bracketed: bool): Option<Expr>
    requires src.len <= |src.text|
  {
    if src.len == 1 && src.text[0] == '*' then Finish(min, max, 1)
    else
      var n := Str2Num(src, min, max);
      if n.0 then Finish(n.1, n.1, 1)
      else if !bracketed then None
      else AfterLow(Gettok(Some(src), '-'), min, max)
  }

  /** Cuts the input at the separator and parses every token; any failure fails the whole. */
  function ParseItems<T>(src: Option<Lstr>, sep: char, parse: Lstr -> Option<T>): Option<seq<T>>
    requires ValidSrc(src)
    decreases if src.Some? then src.value.len + 1 else 0
  {
    if src.None? then Some([])
    else
      var g := Gettok(src, sep);
      if !g.ok then None
      else
        var e := parse(g.tok);
        var rest := ParseItems(g.next, sep, parse);
        if e.None? || rest.None? then None else Some([e.value] + rest.value)
  }

  /** A token between brackets. */
  function ItemParser(min: nat, max: nat): Lstr -> Option<Expr> {
    (tok: Lstr) => if tok.len <= |tok.text| then ParseExpr(tok, min, max, true) else None
  }

  /** What is between brackets goes to one parser, a text without them to the other. */
  function ParseEither<T>(src: Lstr, inside: Lstr -> Option<T>, whole: Lstr -> Option<T>): Option<T>
    requires src.len <= |src.text|
  {
    if src.len >= 2 && src.text[0] == '[' && src.text[src.len - 1] == ']' then inside(Lstr(src.text[1..], src.len - 2))
    else whole(src)
  }

  function ListParser(min: nat, max: nat): Lstr -> Option<seq<Expr>> {
    (inner: Lstr) => if inner.len <= |inner.text| then ParseItems(Some(inner), ',', ItemParser(min, max)) else None
  }

  /** One expression without brackets. */
  function SingleParser(min: nat, max: nat): Lstr -> Option<seq<Expr>> {
    (src: Lstr) =>
      if src.len > |src.text| then None
      else var e := ParseExpr(src, min, max, false); if e.None? then None else Some([e.value])
  }

  /** cfs_expr_list_parse. */
  function ParseList(src: Lstr, min: nat, max: nat): Option<seq<Expr>>
    requires src.len <= |src.text|
  {
    ParseEither(src, ListParser(min, max), SingleParser(min, max))
  }

  // ----- printing

  function ExprText(e: Expr): string {
    if e.lo == e.hi then PrintNum(e.lo)
    else if e.stride == 1 then PrintNum(e.lo) + "-" + PrintNum(e.hi)
    else PrintNum(e.lo) + "-" + PrintNum(e.hi) + "/" + PrintNum(e.stride)
  }

  /** cfs_range_expr_print. */
  function PrintExpr(e: Expr, bracketed: bool): string {
    if bracketed || e.lo == e.hi then ExprText(e) else "[" + ExprText(e) + "]"
  }

  function ExprTexts(es: seq<Expr>): (r: seq<string>)
    ensures |r| == |es| && forall i | 0 <= i < |es| :: r[i] == ExprText(es[i])
  {
    seq(|es|, i requires 0 <= i < |es| => ExprText(es[i]))
  }

  /** The items with the separator between them. */
  function Join(items: seq<string>, sep: char): string {
    if items == [] then "" else if |items| == 1 then items[0] else items[0] + [sep] + Join(items[1..], sep)
  }

  /** cfs_expr_list_print into a buffer that is large enough. */
  function PrintList(es: seq<Expr>): string {
    if |es| > 1 then "[" + Join(ExprTexts(es), ',') + "]" else if es == [] then "" else PrintExpr(es[0], false)
  }

  lemma {:induction false} JoinSnoc(items: seq<string>, x: string, sep: char)
    ensures Join(items + [x], sep) == if items == [] then x else Join(items, sep) + [sep] + x
  {
    if items == [] {
      assert items + [x] == [x];
    } else {
      assert (items + [x])[1..] == items[1..] + [x];
      JoinSnoc(items[1..], x, sep);
      if |items| > 1 {
        assert items[0] + [sep] + (Join(items[1..], sep) + [sep] + x) == items[0] + [sep] + Join(items[1..], sep) + [sep] + x;
      }
    }
  }

  lemma JoinNext(items: seq<string>, j: nat, sep: char)
    requires j < |items|
    ensures Join(items[..j + 1], sep) == if j == 0 then items[0] else Join(items[..j], sep) + [sep] + items[j]
  {
    assert items[..j] + [items[j]] == items[..j + 1];
    JoinSnoc(items[..j], items[j], sep);
  }

  /** The printing loop shared by the printers: a separator before every item but the first. */
  method WriteItems(items: seq<string>, sep: char) returns (buffer: string)
    ensures buffer == Join(items, sep)
  {
    buffer := "";
    for j := 0 to |items|
      invariant buffer == Join(items[..j], sep)
    {
      JoinNext(items, j, sep);
      if j != 0 {
        buffer := buffer + [sep];
      }
      buffer := buffer + items[j];
    }
    assert items[..|items|] == items;
  }

  /** cfs_expr_list_print. */
  method WriteList(es: seq<Expr>) returns (buffer: string)
    ensures buffer == PrintList(es)
  {
    if |es| == 1 {
      return PrintExpr(es[0], false);
    }
    buffer := WriteItems(ExprTexts(es), ',');
    if |es| > 1 {
      buffer := "[" + buffer + "]";
    }
  }

  // ----- tokens of printed text

  predicate Solid(a: string) {
    a != "" && forall i | 0 <= i < |a| :: !IsSpace(a[i])
  }

  lemma {:induction false} FindIn(a: string, s: string, n: nat, c: char)
    requires c !in a && |a| <= n <= |a| + |s| && (n == |a| || s[0] == c)
    ensures Find(a + s, n, c) == |a|
  {
    if a == "" {
      assert a + s == s;
    } else {
      assert (a + s)[1..] == a[1..] + s;
      FindIn(a[1..], s, n - 1, c);
    }
  }

  /** A token that begins and ends without white space. */
  lemma TokenIs(s: string, n: nat, delim: char, e: nat)
    requires 1 <= e <= n <= |s| && !IsSpace(s[0]) && s[0] != delim && !IsSpace(s[e - 1]) && Find(s, n, delim) == e
    ensures Gettok(Some(Lstr(s, n)), delim) ==
            Tok(true, if e == n then None else Some(Lstr(s[e + 1..], n - e - 1)), Lstr(s, e))
  {
    assert s[0..] == s;
  }

  /** A token that ends at a delimiter. */
  lemma TokenBefore(a: string, delim: char, b: string, len: nat)
    requires Solid(a) && delim !in a && |a| + 1 <= len <= |a| + 1 + |b|
    ensures var s := a + [delim] + b;
            Gettok(Some(Lstr(s, len)), delim) == Tok(true, Some(Lstr(b, len - |a| - 1)), Lstr(s, |a|))
  {
    var s := a + [delim] + b;
    assert s == a + ([delim] + b);
    assert s[0] == a[0] && s[|a| - 1] == a[|a| - 1];
    FindIn(a, [delim] + b, len, delim);
    assert s[|a| + 1..] == b;
    TokenIs(s, len, delim, |a|);
  }

  /** The last token. */
  lemma TokenLast(a: string, delim: char, rest: string)
    requires Solid(a) && delim !in a
    ensures Gettok(Some(Lstr(a + rest, |a|)), delim) == Tok(true, None, Lstr(a + rest, |a|))
  {
    var s := a + rest;
    assert s[0] == a[0] && s[|a| - 1] == a[|a| - 1];
    FindIn(a, rest, |a|, delim);
    TokenIs(s, |a|, delim, |a|);
  }

  lemma NumSolid(n: nat)
    ensures Solid(PrintNum(n)) && forall c | !('0' <= c <= '9') :: c !in PrintNum(n)
  {
    PrintedDigits(n);
  }

  // ----- the round trip of one expression

  /** Bounds in the interval and in order; any 32-bit stride. */
  ghost predicate BoundsOk(e: Expr, min: nat, max: nat) {
    min <= e.lo <= e.hi <= max < TWO_32 && e.stride < TWO_32
  }

  /** A well-formed expression whose bounds are in the interval. */
  ghost predicate ExprOk(e: Expr, min: nat, max: nat) {
    BoundsOk(e, min, max) && e.stride >= 1 && (e.lo == e.hi ==> e.stride == 1)
  }

  /** "<hi>" and "<hi>/<stride>" after the dash. */
  lemma DashTrip(e: Expr, rest: string, min: nat, max: nat)
    requires BoundsOk(e, min, max) && Ends(rest)
    ensures var tail := if e.stride == 1 then PrintNum(e.hi) else PrintNum(e.hi) + "/" + PrintNum(e.stride);
            AfterDash(e.lo, Lstr(tail + rest, |tail|), min, max) == Some(e)
  {
    if e.stride == 1 {
      NumberToken(e.hi, rest, min, max);
    } else {
      SlashTrip(e, rest, min, max);
    }
  }

  lemma SlashTrip(e: Expr, rest: string, min: nat, max: nat)
    requires BoundsOk(e, min, max) && Ends(rest)
    ensures var tail := PrintNum(e.hi) + "/" + PrintNum(e.stride);
            AfterDash(e.lo, Lstr(tail + rest, |tail|), min, max) == Some(e)
  {
    var hi, stride := PrintNum(e.hi), PrintNum(e.stride);
    var s, len := hi + "/" + stride + rest, |hi| + 1 + |stride|;
    assert s == hi + ("/" + stride + rest) && s == hi + "/" + (stride + rest);
    LongerToken(e.hi, "/" + stride + rest, len, min, max);
    NumSolid(e.hi);
    TokenBefore(hi, '/', stride + rest, len);
    NumberToken(e.hi, "/" + stride + rest, min, max);
    NumberToken(e.stride, rest, min, max);
    SlashStages(Lstr(s, len), Lstr(s, |hi|), Lstr(stride + rest, |stride|), e, min, max);
  }

  /** The stages of a parse that goes past the slash. */
  lemma SlashStages(src: Lstr, high: Lstr, after: Lstr, e: Expr, min: nat, max: nat)
    requires src.len <= |src.text| && high.len <= |high.text| && after.len <= |after.text|
    requires !Str2Num(src, min, max).0 && Gettok(Some(src), '/') == Tok(true, Some(after), high)
    requires Str2Num(high, min, max) == (true, e.hi) && Str2Num(after, min, max).1 == e.stride && e.lo <= e.hi
    ensures AfterDash(e.lo, src, min, max) == Some(e)
  {
  }

  function Tail(e: Expr): string {
    if e.stride == 1 then PrintNum(e.hi) else PrintNum(e.hi) + "/" + PrintNum(e.stride)
  }

  lemma TextSplit(e: Expr)
    ensures e.lo == e.hi ==> ExprText(e) == PrintNum(e.lo)
    ensures e.lo != e.hi ==> ExprText(e) == PrintNum(e.lo) + "-" + Tail(e)
  {
    if e.lo != e.hi && e.stride != 1 {
      assert ExprText(e) == PrintNum(e.lo) + "-" + (PrintNum(e.hi) + "/" + PrintNum(e.stride));
    }
  }

  predicate ExprChar(c: char) {
    '0' <= c <= '9' || c == '-' || c == '/'
  }

  /** A digit, and only characters of expressions behind it. */
  predicate ExprWord(a: string) {
    a != "" && '0' <= a[0] <= '9' && forall i | 0 <= i < |a| :: ExprChar(a[i])
  }

  lemma NumWord(n: nat)
    ensures ExprWord(PrintNum(n))
  {
    PrintedDigits(n);
  }

  lemma JoinWords(a: string, sep: char, b: string)
    requires ExprWord(a) && ExprWord(b) && ExprChar(sep)
    ensures ExprWord(a + [sep] + b)
  {
  }

  lemma TextWord(e: Expr)
    ensures ExprWord(ExprText(e))
  {
    var lo, hi, stride := PrintNum(e.lo), PrintNum(e.hi), PrintNum(e.stride);
    NumWord(e.lo);
    NumWord(e.hi);
    NumWord(e.stride);
    JoinWords(lo, '-', hi);
    JoinWords(lo + ['-'] + hi, '/', stride);
  }

  lemma TextChars(e: Expr)
    ensures Solid(ExprText(e)) && '0' <= ExprText(e)[0] <= '9'
    ensures forall i | 0 <= i < |ExprText(e)| :: ExprChar(ExprText(e)[i])
  {
    TextWord(e);
    WordSolid(ExprText(e));
  }

  lemma WordSolid(a: string)
    requires ExprWord(a)
    ensures Solid(a)
  {
    assert forall c | ExprChar(c) :: !IsSpace(c);
  }

  lemma ExprTrip(e: Expr, rest: string, min: nat, max: nat, bracketed: bool)
    requires ExprOk(e, min, max) && Ends(rest) && (bracketed || e.lo == e.hi)
    ensures ParseExpr(Lstr(ExprText(e) + rest, |ExprText(e)|), min, max, bracketed) == Some(e)
  {
    TextSplit(e);
    PrintedDigits(e.lo);
    assert (ExprText(e) + rest)[0] != '*';
    if e.lo == e.hi {
      NumberToken(e.lo, rest, min, max);
    } else {
      RangeTrip(e, rest, min, max);
    }
  }

  lemma RangeTrip(e: Expr, rest: string, min: nat, max: nat)
    requires BoundsOk(e, min, max) && Ends(rest)
    ensures var text := PrintNum(e.lo) + "-" + Tail(e);
            ParseExpr(Lstr(text + rest, |text|), min, max, true) == Some(e)
  {
    var lo, tail := PrintNum(e.lo), Tail(e);
    var s, len := lo + "-" + tail + rest, |lo| + 1 + |tail|;
    assert s == lo + ("-" + tail + rest) && s == lo + "-" + (tail + rest);
    PrintedDigits(e.lo);
    LongerToken(e.lo, "-" + tail + rest, len, min, max);
    NumSolid(e.lo);
    TokenBefore(lo, '-', tail + rest, len);
    NumberToken(e.lo, "-" + tail + rest, min, max);
    DashTrip(e, rest, min, max);
    DashStages(Lstr(s, len), Lstr(s, |lo|), Lstr(tail + rest, |tail|), e, min, max);
  }

  /** The stages of a parse that goes past the dash. */
  lemma DashStages(src: Lstr, low: Lstr, after: Lstr, e: Expr, min: nat, max: nat)
    requires src.len <= |src.text| && low.len <= |low.text| && after.len <= |after.text|
    requires src.len != 1 && !Str2Num(src, min, max).0
    requires Gettok(Some(src), '-') == Tok(true, Some(after), low)
    requires Str2Num(low, min, max) == (true, e.lo) && AfterDash(e.lo, after, min, max) == Some(e)
    ensures ParseExpr(src, min, max, true) == Some(e)
  {
  }

  ghost predicate ListOk(es: seq<Expr>, min: nat, max: nat) {
    es != [] && forall i | 0 <= i < |es| :: ExprOk(es[i], min, max)
  }

  /** The parser reads `a` as v whatever follows, as long as it does not run on. */
  ghost predicate ReadsAs<T(!new)>(parse: Lstr -> Option<T>, a: string, v: T) {
    forall rest: string {:trigger a + rest} | Ends(rest) :: parse(Lstr(a + rest, |a|)) == Some(v)
  }

  ghost predicate AllRead<T(!new)>(parse: Lstr -> Option<T>, sep: char, items: seq<string>, vs: seq<T>) {
    && |items| == |vs|
    && forall i | 0 <= i < |items| :: Solid(items[i]) && sep !in items[i] && ReadsAs(parse, items[i], vs[i])
  }

  lemma ItemsStep<T(!new)>(src: Lstr, next: Option<Lstr>, tok: Lstr, v: T, vs: seq<T>, sep: char, parse: Lstr -> Option<T>)
    requires src.len <= |src.text| && ValidSrc(next)
    requires Gettok(Some(src), sep) == Tok(true, next, tok)
    requires parse(tok) == Some(v) && ParseItems(next, sep, parse) == Some(vs)
    ensures ParseItems(Some(src), sep, parse) == Some([v] + vs)
  {
  }

  lemma ItemsLast<T(!new)>(a: string, rest: string, v: T, sep: char, parse: Lstr -> Option<T>)
    requires Solid(a) && sep !in a && ReadsAs(parse, a, v) && Ends(rest)
    ensures ParseItems(Some(Lstr(a + rest, |a|)), sep, parse) == Some([v])
  {
    TokenLast(a, sep, rest);
    ItemsStep(Lstr(a + rest, |a|), None, Lstr(a + rest, |a|), v, [], sep, parse);
    assert [v] + [] == [v];
  }

  lemma ReadHead<T(!new)>(s: string, a: string, after: string, v: T, parse: Lstr -> Option<T>)
    requires ReadsAs(parse, a, v) && Ends(after) && s == a + after
    ensures parse(Lstr(s, |a|)) == Some(v)
  {
  }

  lemma ItemsCons<T(!new)>(a: string, tail: string, rest: string, v: T, vs: seq<T>, sep: char, parse: Lstr -> Option<T>)
    requires Solid(a) && sep !in a && ReadsAs(parse, a, v) && Ends([sep])
    requires ParseItems(Some(Lstr(tail + rest, |tail|)), sep, parse) == Some(vs)
    ensures ParseItems(Some(Lstr(a + [sep] + tail + rest, |a + [sep] + tail|)), sep, parse) == Some([v] + vs)
  {
    var s, len := a + [sep] + tail + rest, |a + [sep] + tail|;
    assert s == a + [sep] + (tail + rest) && s == a + ([sep] + (tail + rest));
    TokenBefore(a, sep, tail + rest, len);
    ReadHead(s, a, [sep] + (tail + rest), v, parse);
    ItemsStep(Lstr(s, len), Some(Lstr(tail + rest, |tail|)), Lstr(s, |a|), v, vs, sep, parse);
  }

  /** Items printed with separators are parsed back one by one. */
  lemma {:induction false} ItemsTrip<T(!new)>(items: seq<string>, vs: seq<T>, sep: char, parse: Lstr -> Option<T>, rest: string)
    requires items != [] && AllRead(parse, sep, items, vs) && Ends([sep]) && Ends(rest)
    ensures ParseItems(Some(Lstr(Join(items, sep) + rest, |Join(items, sep)|)), sep, parse) == Some(vs)
  {
    if |items| == 1 {
      ItemsLast(items[0], rest, vs[0], sep, parse);
      assert vs == [vs[0]];
    } else {
      ItemsTrip(items[1..], vs[1..], sep, parse, rest);
      ItemsCons(items[0], Join(items[1..], sep), rest, vs[0], vs[1..], sep, parse);
      assert vs == [vs[0]] + vs[1..];
    }
  }

  lemma ExprsRead(es: seq<Expr>, min: nat, max: nat)
    requires ListOk(es, min, max)
    ensures AllRead(ItemParser(min, max), ',', ExprTexts(es), es)
  {
    forall i | 0 <= i < |es|
      ensures Solid(ExprText(es[i])) && ',' !in ExprText(es[i]) && ReadsAs(ItemParser(min, max), ExprText(es[i]), es[i])
    {
      TextChars(es[i]);
      forall rest: string | Ends(rest)
        ensures ItemParser(min, max)(Lstr(ExprText(es[i]) + rest, |ExprText(es[i])|)) == Some(es[i])
      {
        ExprTrip(es[i], rest, min, max, true);
      }
    }
  }

  /** Parsing a printed list gives the list back, wherever in a larger text it stands. */
  lemma ListTrip(es: seq<Expr>, rest: string, min: nat, max: nat)
    requires ListOk(es, min, max) && Ends(rest)
    ensures ParseList(Lstr(PrintList(es) + rest, |PrintList(es)|), min, max) == Some(es)
  {
    var text := PrintList(es);
    if |es| == 1 && es[0].lo == es[0].hi {
      TextChars(es[0]);
      ExprTrip(es[0], rest, min, max, false);
      assert (text + rest)[0] == text[0];
      assert es == [es[0]];
    } else {
      var body := Join(ExprTexts(es), ',');
      assert text == "[" + body + "]";
      ExprsRead(es, min, max);
      ItemsTrip(ExprTexts(es), es, ',', ItemParser(min, max), "]" + rest);
      Bracketed(body, rest, min, max);
    }
  }

  lemma Bracketed(body: string, rest: string, min: nat, max: nat)
    ensures var text := "[" + body + "]";
            ParseList(Lstr(text + rest, |text|), min, max) ==
            ParseItems(Some(Lstr(body + ("]" + rest), |body|)), ',', ItemParser(min, max))
  {
    var text := "[" + body + "]";
    var all := text + rest;
    assert all[1..] == body + ("]" + rest);
    assert all[0] == '[' && all[|text| - 1] == ']';
    InBrackets(Lstr(all, |text|), ListParser(min, max), SingleParser(min, max));
  }

  lemma InBrackets<T>(src: Lstr, inside: Lstr -> Option<T>, whole: Lstr -> Option<T>)
    requires 2 <= src.len <= |src.text| && src.text[0] == '[' && src.text[src.len - 1] == ']'
    ensures ParseEither(src, inside, whole) == inside(Lstr(src.text[1..], src.len - 2))
  {
  }

  /** The token loop of cfs_expr_list_parse and of cfs_ip_addr_parse: the list grows at its tail. */
  method ReadItems<T(!new)>(text: string, len: nat, sep: char, parse: Lstr -> Option<T>) returns (r: Option<seq<T>>)
    requires len <= |text|
    ensures r == ParseItems(Some(Lstr(text, len)), sep, parse)
  {
    var src := new Cursor(text, len);
    var list: seq<T> := [];
    ghost var all := ParseItems(src.src, sep, parse);
    PrependNothing(all);
    while src.src.Some?
      invariant ValidSrc(src.src)
      invariant all == Prepend(list, ParseItems(src.src, sep, parse))
      decreases if src.src.Some? then src.src.value.len + 1 else 0
    {
      ghost var before := src.src;
      var ok, tok := src.Next(sep);
      if !ok {
        return None;
      }
      var e := parse(tok);
      PrependOne(before, list, tok, src.src, sep, parse);
      if e.None? {
        return None;
      }
      list := list + [e.value];
    }
    assert list + [] == list;
    return Some(list);
  }

  function Prepend<T>(list: seq<T>, rest: Option<seq<T>>): Option<seq<T>> {
    if rest.None? then None else Some(list + rest.value)
  }

  lemma PrependNothing<T(!new)>(rest: Option<seq<T>>)
    ensures Prepend([], rest) == rest
  {
    if rest.Some? {
      assert [] + rest.value == rest.value;
    }
  }

  lemma PrependOne<T(!new)>(src: Option<Lstr>, list: seq<T>, tok: Lstr, next: Option<Lstr>, sep: char, parse: Lstr -> Option<T>)
    requires ValidSrc(src) && ValidSrc(next) && Gettok(src, sep) == Tok(true, next, tok)
    ensures Prepend(list, ParseItems(src, sep, parse)) ==
            if parse(tok).None? then None else Prepend(list + [parse(tok).value], ParseItems(next, sep, parse))
  {
    var rest := ParseItems(next, sep, parse);
    if parse(tok).Some? && rest.Some? {
      assert list + ([parse(tok).value] + rest.value) == list + [parse(tok).value] + rest.value;
    }
  }
}
