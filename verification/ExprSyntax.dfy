/**
  What cfs_range_expr_parse (lib/libcfs/string.c) accepts, against the syntax it documents: a star, a
  number, "<number>-<number>" or "<number>-<number>/<number>".
*/
module ExprSyntax {
  import opened Collections
  import opened Machine
  import opened Numerals
  import opened AddrRange
  import opened RangeExpr

  /** The token is the number n, and n is in the interval. */
  predicate IsNumber(tok: Lstr, n: nat, min: nat, max: nat)
    requires tok.len <= |tok.text|
  {
    Str2Num(tok, min, max) == (true, n)
  }

  predicate IsStar(tok: Lstr) {
    tok.len == 1 && tok.text != "" && tok.text[0] == '*'
  }

  /** The text before and after the first delimiter, if there is something before it. */
  function Cut(src: Lstr, delim: char): (r: Option<(Lstr, Lstr)>)
    requires src.len <= |src.text|
    ensures r.Some? ==> r.value.0.len <= |r.value.0.text| && r.value.1.len <= |r.value.1.text|
  {
    var g := Gettok(Some(src), delim);
    if g.ok && g.next.Some? then Some((g.tok, g.next.value)) else None
  }

  /** "<hi>" or "<hi>/<stride>" with a stride of at least one. */
  ghost predicate DenotesEnd(src: Lstr, e: Expr, min: nat, max: nat)
    requires src.len <= |src.text|
  {
    || (IsNumber(src, e.hi, min, max) && e.stride == 1)
    || (var cut := Cut(src, '/');
        cut.Some? && IsNumber(cut.value.0, e.hi, min, max) && IsNumber(cut.value.1, e.stride, min, max) && e.stride >= 1)
  }

  /** The documented syntax: the text stands for the expression e. */
  ghost predicate Denotes(src: Lstr, e: Expr, min: nat, max: nat)
    requires src.len <= |src.text|
  {
    && e.lo <= e.hi
    && (|| (IsStar(src) && e == Expr(min, max, 1))
        || (IsNumber(src, e.lo, min, max) && e.hi == e.lo && e.stride == 1)
        || (var cut := Cut(src, '-');
            cut.Some? && IsNumber(cut.value.0, e.lo, min, max) && DenotesEnd(cut.value.1, e, min, max)))
  }

  /** What follows the dash is one number, or a slash with one number of at least one behind it. */
  predicate EndOk(src: Lstr, min: nat, max: nat)
    requires src.len <= |src.text|
  {
    || Str2Num(src, min, max).0
    || (var cut := Cut(src, '/'); cut.Some? && Str2Num(cut.value.1, if min < 1 then 1 else min, max).0)
  }

  /** There is no dash, or what follows it is in order. */
  predicate StrideChecked(src: Lstr, min: nat, max: nat)
    requires src.len <= |src.text|
  {
    var cut := Cut(src, '-');
    cut.None? || EndOk(cut.value.1, min, max)
  }

  // ----- a number has no delimiter in it

  lemma {:induction false} DigitsOnly(s: string, base: nat, i: nat)
    requires i < ScanDigits(s, base)
    ensures i < |s| && DigitOf(s[i]) < base
  {
    if i > 0 {
      DigitsOnly(s[1..], base, i - 1);
    }
  }

  lemma {:induction false} SpacesEnd(s: string, n: nat, m: nat)
    requires n <= m <= |s| && LeadSpaces(s, n) < n
    ensures LeadSpaces(s, m) == LeadSpaces(s, n)
  {
    if n > 0 && IsSpace(s[0]) {
      SpacesEnd(s[1..], n - 1, m - 1);
    }
  }

  lemma {:induction false} FoundHere(s: string, n: nat, c: char)
    requires n <= |s| && Find(s, n, c) < n
    ensures s[Find(s, n, c)] == c
  {
    if n > 0 && s[0] != c {
      FoundHere(s[1..], n - 1, c);
    }
  }

  /** Behind its first character, what strtoul reads as a number has no dash and no slash. */
  lemma NoDelimiterRead(s: string, i: nat)
    requires LeadSpaces(s, |s|) < i < Consumed(s)
    ensures s[i] != '-' && s[i] != '/'
  {
    var k := LeadSpaces(s, |s|);
    assert Consumed(s) == ReadSigned(s[k..], k).1;
    SignedDigits(s[k..], k, i - k);
    assert s[i] == s[k..][i - k];
  }

  lemma SignedDigits(u: string, before: nat, i: nat)
    requires 0 < i && before + i < ReadSigned(u, before).1
    ensures i < |u| && u[i] != '-' && u[i] != '/'
  {
    if u[0] == '-' || u[0] == '+' {
      DigitsAndPrefix(u[1..], i - 1);
    } else {
      DigitsAndPrefix(u, i);
    }
  }

  lemma DigitsAndPrefix(t: string, i: nat)
    requires i < Prefix(t) + DigitCount(t)
    ensures t[i] != '-' && t[i] != '/'
  {
    var p := Prefix(t);
    if i >= p {
      DigitsOnly(t[p..], Base(t), i - p);
    }
  }

  /** A cut is at a delimiter behind the first character that is not white space. */
  lemma CutPlace(src: Lstr, delim: char) returns (i: nat)
    requires src.len <= |src.text| && Cut(src, delim).Some?
    ensures LeadSpaces(src.text, |src.text|) < i < src.len && src.text[i] == delim
  {
    var k := LeadSpaces(src.text, src.len);
    var s, n := src.text[k..], src.len - k;
    SpacesEnd(src.text, src.len, |src.text|);
    FoundHere(s, n, delim);
    i := k + Find(s, n, delim);
  }

  /** A token that is one number is not cut at a dash or a slash. */
  lemma NumberNotCut(src: Lstr, delim: char, min: nat, max: nat)
    requires src.len <= |src.text| && (delim == '-' || delim == '/') && Str2Num(src, min, max).0
    ensures Cut(src, delim).None?
  {
    if Cut(src, delim).Some? {
      var i := CutPlace(src, delim);
      if i < Consumed(src.text) {
        NoDelimiterRead(src.text, i);
      } else {
        NumberEnds(src, i, min, max);
      }
    }
  }

  /** What is left of a number token behind the number is white space. */
  lemma NumberEnds(src: Lstr, i: nat, min: nat, max: nat)
    requires Consumed(src.text) <= i < src.len <= |src.text| && Str2Num(src, min, max).0
    ensures IsSpace(src.text[i])
  {
    var n := Consumed(src.text);
    assert src.text[n..src.len][i - n] == src.text[i];
  }

  // ----- the parser against the syntax

  /** The smallest stride that passes is one. */
  lemma AtLeastOne(tok: Lstr, min: nat, max: nat)
    requires tok.len <= |tok.text|
    ensures Str2Num(tok, if min < 1 then 1 else min, max).0 <==> Str2Num(tok, min, max).0 && Str2Num(tok, min, max).1 >= 1
    ensures Str2Num(tok, if min < 1 then 1 else min, max).1 == Str2Num(tok, min, max).1
  {
  }

  /** Behind the dash: the result is the documented one exactly if the end is in order. */
  lemma EndExact(src: Lstr, e: Expr, min: nat, max: nat)
    requires src.len <= |src.text|
    ensures AfterDash(e.lo, src, min, max) == Some(e) && EndOk(src, min, max) <==>
            e.lo <= e.hi && DenotesEnd(src, e, min, max)
  {
    if Str2Num(src, min, max).0 {
      NumberNotCut(src, '/', min, max);
    } else {
      SlashExact(Str2Num(src, min, max).1, Gettok(Some(src), '/'), e, min, max);
    }
  }

  /** Behind the slash: the stride stored is the one checked exactly if the check passes. */
  lemma SlashExact(stored: nat, g: Tok, e: Expr, min: nat, max: nat)
    requires ValidSrc(g.next) && g.tok.len <= |g.tok.text|
    ensures AfterSlash(e.lo, stored, g, min, max) == Some(e) && g.ok && g.next.Some? &&
            Str2Num(g.next.value, if min < 1 then 1 else min, max).0 <==>
            e.lo <= e.hi && g.ok && g.next.Some? && Str2Num(g.tok, min, max) == (true, e.hi) &&
            Str2Num(g.next.value, min, max) == (true, e.stride) && e.stride >= 1
  {
    if g.ok && g.next.Some? {
      AtLeastOne(g.next.value, min, max);
    }
  }

  lemma StarIsNoNumber(src: Lstr, min: nat, max: nat)
    requires src.len <= |src.text| && IsStar(src)
    ensures !Str2Num(src, min, max).0 && Cut(src, '-').None?
  {
    var s := src.text;
    NoNumber(s);
    assert LeadSpaces(s, 1) == 0 && s[0..] == s;
    assert Find(s, 1, '-') == 1;
  }

  /** The parse of a text that is neither a star nor a number. */
  lemma CutExact(src: Lstr, e: Expr, min: nat, max: nat)
    requires src.len <= |src.text| && !IsStar(src) && !Str2Num(src, min, max).0
    ensures ParseExpr(src, min, max, true) == Some(e) <==>
            var cut := Cut(src, '-');
            cut.Some? && IsNumber(cut.value.0, e.lo, min, max) && AfterDash(e.lo, cut.value.1, min, max) == Some(e)
  {
    LowIsFirst(Gettok(Some(src), '-'), e, min, max);
  }

  lemma LowIsFirst(g: Tok, e: Expr, min: nat, max: nat)
    requires ValidSrc(g.next) && g.tok.len <= |g.tok.text|
    ensures AfterLow(g, min, max) == Some(e) <==>
            && g.ok && g.next.Some? && Str2Num(g.tok, min, max) == (true, e.lo)
            && AfterDash(e.lo, g.next.value, min, max) == Some(e)
  {
    if g.ok && g.next.Some? {
      LowKept(Str2Num(g.tok, min, max).1, g.next.value, min, max);
    }
  }

  /** The lower bound goes into the result as it is. */
  lemma LowKept(lo: nat, src: Lstr, min: nat, max: nat)
    requires src.len <= |src.text|
    ensures AfterDash(lo, src, min, max).Some? ==> AfterDash(lo, src, min, max).value.lo == lo
  {
  }

  /**
    The parser returns e and the stride part is in order if and only if the text stands for e in the
    documented syntax. So everything documented is accepted with its meaning, and an accepted text
    has a stride that was checked and is at least one exactly when StrideChecked holds.
  */
  lemma ParserExact(src: Lstr, e: Expr, min: nat, max: nat)
    requires src.len <= |src.text|
    ensures ParseExpr(src, min, max, true) == Some(e) && StrideChecked(src, min, max) <==> Denotes(src, e, min, max)
  {
    if IsStar(src) {
      StarIsNoNumber(src, min, max);
    } else if Str2Num(src, min, max).0 {
      NumberNotCut(src, '-', min, max);
    } else {
      CutExact(src, e, min, max);
      if Cut(src, '-').Some? {
        EndExact(Cut(src, '-').value.1, e, min, max);
      }
    }
  }

  /** Outside brackets only a star or a number is accepted, and then the result is the documented one. */
  lemma UnbracketedExact(src: Lstr, e: Expr, min: nat, max: nat)
    requires src.len <= |src.text|
    ensures ParseExpr(src, min, max, false) == Some(e) <==>
            Denotes(src, e, min, max) && (IsStar(src) || Str2Num(src, min, max).0)
  {
    if IsStar(src) {
      StarIsNoNumber(src, min, max);
    } else if Str2Num(src, min, max).0 {
      NumberNotCut(src, '-', min, max);
    }
  }

  // ----- texts outside the syntax that are accepted

  /**
    First way out: any 32-bit stride behind the slash is kept, zero and numbers outside the interval
    included.
  */
  lemma AnyStrideKept(lo: nat, hi: nat, stride: nat, rest: string, min: nat, max: nat)
    requires min <= lo <= hi <= max < TWO_32 && stride < TWO_32 && stride != 1 && Ends(rest)
    ensures var text := PrintNum(lo) + "-" + (PrintNum(hi) + "/" + PrintNum(stride));
            ParseExpr(Lstr(text + rest, |text|), min, max, true) == Some(Expr(lo, hi, stride))
  {
    RangeTrip(Expr(lo, hi, stride), rest, min, max);
  }

  /** "[1-5/0]": a stride of zero. */
  lemma ZeroStride(text: string)
    requires text == "1-5/0]"
    ensures ParseExpr(Lstr(text, 5), 0, 255, true) == Some(Expr(1, 5, 0))
  {
    var printed := PrintNum(1) + "-" + (PrintNum(5) + "/" + PrintNum(0));
    assert |printed| == 5 && printed + "]" == text by {
      Numbers015();
    }
    AnyStrideKept(1, 5, 0, "]", 0, 255);
  }

  lemma Numbers015()
    ensures PrintNum(0) == "0" && PrintNum(1) == "1" && PrintNum(5) == "5"
  {
    assert DigitChar(0) == '0' && DigitChar(1) == '1' && DigitChar(5) == '5';
  }

  /** Nothing that ends at a slash stands behind the dash. */
  predicate NothingThere(src: Lstr)
    requires src.len <= |src.text|
  {
    !Gettok(Some(src), '/').ok
  }

  /** Second way out: nothing, or a slash, behind the dash. The unchecked upper bound and stride zero are kept. */
  lemma NothingBehindDash(lo: nat, src: Lstr, min: nat, max: nat)
    requires src.len <= |src.text| && NothingThere(src) && !Str2Num(src, min, max).0
    ensures AfterDash(lo, src, min, max) ==
            if lo <= Str2Num(src, min, max).1 then Some(Expr(lo, Str2Num(src, min, max).1, 0)) else None
  {
  }

  /** "[0-]": accepted as zero to zero with stride zero. */
  lemma OpenRange()
    ensures ParseExpr(Lstr("0-]", 2), 0, 255, true) == Some(Expr(0, 0, 0))
  {
    Numbers015();
    var s := "0-]";
    assert s == "0" + "-]" && s == "0" + "-" + "]";
    PrintedDigits(0);
    LongerToken(0, "-]", 2, 0, 255);
    NumSolid(0);
    TokenBefore("0", '-', "]", 2);
    NumberToken(0, "-]", 0, 255);
    BracketIsNothing();
    NothingBehindDash(0, Lstr("]", 0), 0, 255);
    DashStages(Lstr(s, 2), Lstr(s, 1), Lstr("]", 0), Expr(0, 0, 0), 0, 255);
  }

  /** A character that is no white space, sign or digit does not begin a number. */
  lemma NoNumber(s: string)
    requires s != "" && !IsSpace(s[0]) && s[0] != '-' && s[0] != '+' && DigitOf(s[0]) == 16
    ensures StrToUl(s) == (0, 0)
  {
    NoDigitsNoNumber("", "", s);
    assert "" + ("" + s) == s;
  }

  lemma NothingLeft(s: string)
    ensures NothingThere(Lstr(s, 0))
  {
  }

  lemma BracketIsNothing()
    ensures NothingThere(Lstr("]", 0)) && Str2Num(Lstr("]", 0), 0, 255) == (false, 0)
  {
    NothingLeft("]");
    NoNumber("]");
  }

  // ----- tokens of any text

  lemma {:induction false} LeadExact(s: string, n: nat)
    requires n <= |s|
    ensures var k := LeadSpaces(s, n);
            k <= n && (forall i | 0 <= i < k :: IsSpace(s[i])) && (k < n ==> !IsSpace(s[k]))
  {
    if n > 0 && IsSpace(s[0]) {
      LeadExact(s[1..], n - 1);
      assert forall i | 1 <= i < LeadSpaces(s, n) :: s[i] == s[1..][i - 1];
    }
  }

  lemma {:induction false} FindExact(s: string, n: nat, c: char)
    requires n <= |s|
    ensures var i := Find(s, n, c); (forall j | 0 <= j < i :: s[j] != c) && (i < n ==> s[i] == c)
  {
    if n > 0 && s[0] != c {
      FindExact(s[1..], n - 1, c);
      assert forall j | 1 <= j < Find(s, n, c) :: s[j] == s[1..][j - 1];
    }
  }

  lemma {:induction false} TrimExact(s: string, n: nat)
    requires 1 <= n <= |s| && !IsSpace(s[0])
    ensures var k := TrimEnd(s, n); !IsSpace(s[k - 1]) && forall i | k <= i < n :: IsSpace(s[i])
  {
    if n > 1 && IsSpace(s[n - 1]) {
      TrimExact(s, n - 1);
    }
  }

  /** The first k characters are all the white space in front. */
  ghost predicate Blanks(s: string, n: nat, k: nat) {
    k <= n <= |s| && (forall i | 0 <= i < k :: IsSpace(s[i])) && (k < n ==> !IsSpace(s[k..][0]))
  }

  /** cfs_gettok skips the blanks in front. */
  lemma GettokSkips(src: Lstr, delim: char) returns (k: nat)
    requires src.len <= |src.text|
    ensures Blanks(src.text, src.len, k) && Gettok(Some(src), delim) == TokenAt(src.text[k..], src.len - k, delim)
  {
    k := LeadSpaces(src.text, src.len);
    LeadExact(src.text, src.len);
  }

  /** A token that begins at s goes on to the first delimiter at e, and loses the blanks before it. */
  ghost predicate TokenUpTo(s: string, n: nat, delim: char, e: nat, k: nat) {
    && 1 <= k <= e <= n <= |s| && (forall i | 0 <= i < e :: s[i] != delim) && (e < n ==> s[e] == delim)
    && !IsSpace(s[k - 1]) && (forall i | k <= i < e :: IsSpace(s[i]))
  }

  lemma TokenCut(s: string, n: nat, delim: char)
    requires 1 <= n <= |s| && !IsSpace(s[0]) && s[0] != delim
    ensures var e := Find(s, n, delim); e >= 1 && TokenUpTo(s, n, delim, e, TrimEnd(s, e))
  {
    FindExact(s, n, delim);
    TrimExact(s, Find(s, n, delim));
  }

  /**
    cfs_gettok behind the blanks: there is no token if nothing or a delimiter is left; else the token
    ends at the first delimiter, or at the end, without the blanks before that, and the rest begins
    behind the delimiter.
  */
  lemma TokenAtExact(s: string, n: nat, delim: char) returns (e: nat)
    requires n <= |s| && (n > 0 ==> !IsSpace(s[0]))
    ensures var g := TokenAt(s, n, delim);
            if n == 0 || s[0] == delim then !g.ok && g.next == Some(Lstr(s, n))
            else
              && g.ok && TokenUpTo(s, n, delim, e, g.tok.len) && g.tok.text == s
              && g.next == if e == n then None else Some(Lstr(s[e + 1..], n - e - 1))
  {
    e := 0;
    if n > 0 && s[0] != delim {
      TokenCut(s, n, delim);
      e := Find(s, n, delim);
    }
  }

  lemma {:induction false} FirstAt(s: string, c: char, i: nat)
    requires i < |s| && s[i] == c && c !in s[..i]
    ensures Find(s, |s|, c) == i
  {
    if i > 0 {
      assert s[..i][0] == s[0] && s[1..][..i - 1] == s[..i][1..];
      FirstAt(s[1..], c, i - 1);
    }
  }

  // ----- lists of any items

  /** The parser refuses `a`, whatever follows it that does not run on. */
  ghost predicate Refused<T(!new)>(parse: Lstr -> Option<T>, a: string) {
    forall rest: string {:trigger a + rest} | Ends(rest) :: parse(Lstr(a + rest, |a|)).None?
  }

  lemma NoTokenNoList<T>(src: Lstr, sep: char, parse: Lstr -> Option<T>)
    requires src.len <= |src.text| && !Gettok(Some(src), sep).ok
    ensures ParseItems(Some(src), sep, parse).None?
  {
  }

  /** A list with an item that the parser refuses is refused. */
  lemma {:induction false} OneRefused<T(!new)>(items: seq<string>, sep: char, parse: Lstr -> Option<T>, rest: string, i: nat)
    requires i < |items| && (forall j | 0 <= j < |items| :: Solid(items[j]) && sep !in items[j]) && Refused(parse, items[i])
    requires Ends([sep]) && Ends(rest)
    ensures ParseItems(Some(Lstr(Join(items, sep) + rest, |Join(items, sep)|)), sep, parse).None?
  {
    if |items| == 1 {
      RefusedLast(items[0], rest, sep, parse);
    } else if i == 0 {
      RefusedFirst(items[0], Join(items[1..], sep), rest, sep, parse);
    } else {
      OneRefused(items[1..], sep, parse, rest, i - 1);
      RefusedLater(items[0], Join(items[1..], sep), rest, sep, parse);
    }
  }

  lemma RefusedHere<T(!new)>(s: string, a: string, after: string, parse: Lstr -> Option<T>)
    requires Refused(parse, a) && Ends(after) && s == a + after
    ensures parse(Lstr(s, |a|)).None?
  {
  }

  lemma ItemFails<T>(src: Lstr, next: Option<Lstr>, tok: Lstr, sep: char, parse: Lstr -> Option<T>)
    requires src.len <= |src.text| && ValidSrc(next) && Gettok(Some(src), sep) == Tok(true, next, tok) && parse(tok).None?
    ensures ParseItems(Some(src), sep, parse).None?
  {
  }

  lemma RestFails<T>(src: Lstr, next: Option<Lstr>, tok: Lstr, sep: char, parse: Lstr -> Option<T>)
    requires src.len <= |src.text| && ValidSrc(next) && Gettok(Some(src), sep) == Tok(true, next, tok)
    requires ParseItems(next, sep, parse).None?
    ensures ParseItems(Some(src), sep, parse).None?
  {
  }

  lemma RefusedLast<T(!new)>(a: string, rest: string, sep: char, parse: Lstr -> Option<T>)
    requires Solid(a) && sep !in a && Ends(rest) && Refused(parse, a)
    ensures ParseItems(Some(Lstr(a + rest, |a|)), sep, parse).None?
  {
    TokenLast(a, sep, rest);
    RefusedHere(a + rest, a, rest, parse);
    ItemFails(Lstr(a + rest, |a|), None, Lstr(a + rest, |a|), sep, parse);
  }

  lemma RefusedFirst<T(!new)>(a: string, tail: string, rest: string, sep: char, parse: Lstr -> Option<T>)
    requires Solid(a) && sep !in a && Ends([sep]) && Refused(parse, a)
    ensures ParseItems(Some(Lstr(a + [sep] + tail + rest, |a + [sep] + tail|)), sep, parse).None?
  {
    var s, len := a + [sep] + tail + rest, |a + [sep] + tail|;
    assert s == a + [sep] + (tail + rest) && s == a + ([sep] + (tail + rest));
    TokenBefore(a, sep, tail + rest, len);
    RefusedHere(s, a, [sep] + (tail + rest), parse);
    ItemFails(Lstr(s, len), Some(Lstr(tail + rest, |tail|)), Lstr(s, |a|), sep, parse);
  }

  lemma RefusedLater<T>(a: string, tail: string, rest: string, sep: char, parse: Lstr -> Option<T>)
    requires Solid(a) && sep !in a && ParseItems(Some(Lstr(tail + rest, |tail|)), sep, parse).None?
    ensures ParseItems(Some(Lstr(a + [sep] + tail + rest, |a + [sep] + tail|)), sep, parse).None?
  {
    var s, len := a + [sep] + tail + rest, |a + [sep] + tail|;
    assert s == a + [sep] + (tail + rest);
    TokenBefore(a, sep, tail + rest, len);
    RestFails(Lstr(s, len), Some(Lstr(tail + rest, |tail|)), Lstr(s, |a|), sep, parse);
  }

  /** cfs_expr_list_parse: what is not in brackets is one expression. */
  lemma WithoutBrackets(src: Lstr, min: nat, max: nat)
    requires src.len <= |src.text| && (src.len < 2 || src.text[0] != '[' || src.text[src.len - 1] != ']')
    ensures ParseList(src, min, max) ==
            (var e := ParseExpr(src, min, max, false); if e.None? then None else Some([e.value]))
  {
  }
}
