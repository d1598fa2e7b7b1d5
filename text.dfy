/** The Python string primitives the core relies on: `str.isspace`,
    `str.strip`, `str.join`, `str.replace` of one character, `str.lower`
    on ASCII, and the decimal rendering and parsing of integers. */
module Text {

  /** Python's `str.isspace()`, which is also what the `\s` class of `re`
      matches in a str pattern. U+001C..U+001F count as whitespace. */
  predicate IsSpace(c: char) {
    || ('\t' <= c <= '\r')
    || ('\U{1C}' <= c <= '\U{1F}')
    || c == ' '
    || c == '\U{85}'
    || c == '\U{A0}'
    || c == '\U{1680}'
    || ('\U{2000}' <= c <= '\U{200A}')
    || c == '\U{2028}'
    || c == '\U{2029}'
    || c == '\U{202F}'
    || c == '\U{205F}'
    || c == '\U{3000}'
  }

  /** An ASCII decimal digit (the model's reading of `\d`). */
  predicate IsDigit(c: char) {
    '0' <= c <= '9'
  }

  predicate AllDigits(s: string) {
    forall i :: 0 <= i < |s| ==> IsDigit(s[i])
  }

  /** `s.lstrip()` */
  function StripStart(s: string): string {
    if s != [] && IsSpace(s[0]) then StripStart(s[1..]) else s
  }

  /** `s.rstrip()` */
  function StripEnd(s: string): string {
    if s != [] && IsSpace(s[|s| - 1]) then StripEnd(s[..|s| - 1]) else s
  }

  /** `lstrip` drops exactly the leading whitespace. */
  lemma {:induction false} StripStartShape(s: string)
    ensures |StripStart(s)| <= |s|
    ensures StripStart(s) == s[|s| - |StripStart(s)|..]
    ensures StripStart(s) != [] ==> !IsSpace(StripStart(s)[0])
    ensures forall i :: 0 <= i < |s| - |StripStart(s)| ==> IsSpace(s[i])
  {
    if s != [] && IsSpace(s[0]) {
      var rest := s[1..];
      StripStartShape(rest);
      var t := StripStart(rest);
      assert StripStart(s) == t;
      assert rest[|rest| - |t|..] == s[|s| - |t|..];
      forall i | 0 < i < |s| - |t| ensures IsSpace(s[i]) {
        assert s[i] == rest[i - 1];
      }
    }
  }

  /** `rstrip` drops exactly the trailing whitespace. */
  lemma {:induction false} StripEndShape(s: string)
    ensures |StripEnd(s)| <= |s|
    ensures StripEnd(s) == s[..|StripEnd(s)|]
    ensures StripEnd(s) != [] ==> !IsSpace(StripEnd(s)[|StripEnd(s)| - 1])
    ensures forall i :: |StripEnd(s)| <= i < |s| ==> IsSpace(s[i])
  {
    if s != [] && IsSpace(s[|s| - 1]) {
      StripEndShape(s[..|s| - 1]);
    }
  }

  /** `s.strip()` */
  function Strip(s: string): string {
    StripEnd(StripStart(s))
  }

  /** The result of `strip` is a slice of its input with whitespace only
      outside the slice and none at either end of it. */
  lemma StripSlice(s: string) returns (lo: nat, hi: nat)
    ensures lo <= hi <= |s| && Strip(s) == s[lo..hi]
    ensures Strip(s) != [] ==> !IsSpace(Strip(s)[0]) && !IsSpace(Strip(s)[|Strip(s)| - 1])
    ensures forall i :: 0 <= i < lo ==> IsSpace(s[i])
    ensures forall i :: hi <= i < |s| ==> IsSpace(s[i])
  {
    var t := StripStart(s);
    StripStartShape(s);
    StripEndShape(t);
    lo := |s| - |t|;
    var r := StripEnd(t);
    hi := lo + |r|;
    assert r == t[..|r|] == s[lo..][..|r|] == s[lo..hi];
    forall i | hi <= i < |s| ensures IsSpace(s[i]) {
      assert s[i] == t[i - lo];
    }
  }

  /** `strip` changes nothing when neither end is whitespace. */
  lemma StripNoop(s: string)
    requires s != [] ==> !IsSpace(s[0]) && !IsSpace(s[|s| - 1])
    ensures Strip(s) == s
  {
  }

  /** `strip` is idempotent. */
  lemma StripIdempotent(s: string)
    ensures Strip(Strip(s)) == Strip(s)
  {
    var _, _ := StripSlice(s);
    StripNoop(Strip(s));
  }

  predicate AllSpace(s: string) {
    forall i :: 0 <= i < |s| ==> IsSpace(s[i])
  }

  lemma {:induction false} StripStartPrefix(pre: string, x: string)
    requires AllSpace(pre)
    ensures StripStart(pre + x) == StripStart(x)
  {
    if pre != [] {
      assert (pre + x)[0] == pre[0] && (pre + x)[1..] == pre[1..] + x;
      StripStartPrefix(pre[1..], x);
    } else {
      assert pre + x == x;
    }
  }

  lemma {:induction false} StripEndSuffix(x: string, post: string)
    requires AllSpace(post)
    ensures StripEnd(x + post) == StripEnd(x)
  {
    if post != [] {
      var n := |x + post|;
      assert (x + post)[n - 1] == post[|post| - 1];
      assert (x + post)[..n - 1] == x + post[..|post| - 1];
      StripEndSuffix(x, post[..|post| - 1]);
    } else {
      assert x + post == x;
    }
  }

  lemma {:induction false} StripStartAppend(u: string, post: string)
    requires AllSpace(post)
    ensures StripStart(u + post) == if StripStart(u) == [] then [] else StripStart(u) + post
  {
    if u == [] {
      var empty: string := [];
      assert u + post == post + empty;
      StripStartPrefix(post, empty);
      assert StripStart(empty) == empty;
    } else {
      assert (u + post)[0] == u[0] && (u + post)[1..] == u[1..] + post;
      if IsSpace(u[0]) {
        StripStartAppend(u[1..], post);
        assert StripStart(u + post) == StripStart(u[1..] + post);
        assert StripStart(u) == StripStart(u[1..]);
      }
    }
  }

  /** Whitespace around a text does not change what `strip` gives. */
  lemma StripPadded(pre: string, u: string, post: string)
    requires AllSpace(pre) && AllSpace(post)
    ensures Strip(pre + u + post) == Strip(u)
  {
    assert pre + u + post == pre + (u + post);
    StripStartPrefix(pre, u + post);
    StripStartAppend(u, post);
    if StripStart(u) != [] {
      StripEndSuffix(StripStart(u), post);
    }
  }

  /** `sep.join(xs)` */
  function JoinWith(xs: seq<string>, sep: string): string {
    if |xs| == 0 then ""
    else if |xs| == 1 then xs[0]
    else xs[0] + sep + JoinWith(xs[1..], sep)
  }

  /** A join whose first piece is non-empty is non-empty. */
  lemma JoinWithNonEmpty(xs: seq<string>, sep: string)
    requires |xs| > 0 && xs[0] != ""
    ensures JoinWith(xs, sep) != "" && JoinWith(xs, sep)[0] == xs[0][0]
  {
  }

  /** The last piece of a join ends it. */
  lemma {:induction false} JoinWithLast(xs: seq<string>, sep: string)
    requires |xs| > 0 && xs[|xs| - 1] != ""
    ensures JoinWith(xs, sep) != ""
    ensures JoinWith(xs, sep)[|JoinWith(xs, sep)| - 1] == xs[|xs| - 1][|xs[|xs| - 1]| - 1]
  {
    if |xs| > 1 {
      JoinWithLast(xs[1..], sep);
    }
  }

  /** Joining one more piece appends the separator and the piece. */
  lemma {:induction false} JoinWithSnoc(xs: seq<string>, x: string, sep: string)
    requires |xs| > 0
    ensures JoinWith(xs + [x], sep) == JoinWith(xs, sep) + sep + x
  {
    if |xs| > 1 {
      assert (xs + [x])[1..] == xs[1..] + [x];
      JoinWithSnoc(xs[1..], x, sep);
    }
  }

  /** `s.replace(a, [b])` for single characters. */
  function ReplaceChar(s: string, a: char, b: char): (r: string)
    ensures |r| == |s|
    ensures forall i :: 0 <= i < |s| ==> r[i] == if s[i] == a then b else s[i]
  {
    if s == [] then [] else [if s[0] == a then b else s[0]] + ReplaceChar(s[1..], a, b)
  }

  /** `s.replace(a, "")`: every occurrence of `a` removed, all else kept in order. */
  function RemoveChar(s: string, a: char): (r: string)
    ensures a !in r
    ensures forall c :: c in r <==> c in s && c != a
    ensures a !in s ==> r == s
  {
    if s == [] then [] else (if s[0] == a then [] else [s[0]]) + RemoveChar(s[1..], a)
  }

  /** The characters of `s` that are not whitespace, in order: the text of
      a label once its spacing is ignored. */
  function NonSpace(s: string): string {
    if s == [] then [] else (if IsSpace(s[0]) then [] else [s[0]]) + NonSpace(s[1..])
  }

  lemma {:induction false} NonSpaceConcat(a: string, b: string)
    ensures NonSpace(a + b) == NonSpace(a) + NonSpace(b)
  {
    if a == [] {
      assert a + b == b;
    } else {
      assert (a + b)[0] == a[0] && (a + b)[1..] == a[1..] + b;
      NonSpaceConcat(a[1..], b);
    }
  }

  /** `strip` removes whitespace only. */
  lemma {:induction false} StripKeepsText(s: string)
    ensures NonSpace(Strip(s)) == NonSpace(s)
  {
    StripStartKeepsText(s);
    StripEndKeepsText(StripStart(s));
  }

  lemma {:induction false} StripStartKeepsText(s: string)
    ensures NonSpace(StripStart(s)) == NonSpace(s)
  {
    if s != [] && IsSpace(s[0]) {
      StripStartKeepsText(s[1..]);
    }
  }

  lemma {:induction false} StripEndKeepsText(s: string)
    ensures NonSpace(StripEnd(s)) == NonSpace(s)
  {
    if s != [] && IsSpace(s[|s| - 1]) {
      var init := s[..|s| - 1];
      StripEndKeepsText(init);
      assert s == init + [s[|s| - 1]];
      NonSpaceConcat(init, [s[|s| - 1]]);
    }
  }

  /** Replacing a whitespace character by another one keeps the text. */
  lemma {:induction false} ReplaceSpaceKeepsText(s: string, a: char, b: char)
    requires IsSpace(a) && IsSpace(b)
    ensures NonSpace(ReplaceChar(s, a, b)) == NonSpace(s)
  {
    if s != [] {
      var r := ReplaceChar(s, a, b);
      assert r == [r[0]] + ReplaceChar(s[1..], a, b);
      ReplaceSpaceKeepsText(s[1..], a, b);
    }
  }

  /** Removing a character that is not whitespace commutes with dropping
      the whitespace. */
  lemma {:induction false} RemoveCharKeepsText(s: string, a: char)
    requires !IsSpace(a)
    ensures NonSpace(RemoveChar(s, a)) == RemoveChar(NonSpace(s), a)
  {
    if s != [] {
      var c, t := s[0], s[1..];
      assert s == [c] + t;
      var head: string := if c == a then [] else [c];
      var spaced: string := if IsSpace(c) then [] else [c];
      calc {
        NonSpace(RemoveChar(s, a));
        { RemoveCharCons(c, t, a); }
        NonSpace(head + RemoveChar(t, a));
        { NonSpaceConcat(head, RemoveChar(t, a)); NonSpaceCons(c, []); }
        (if IsSpace(c) then [] else head) + NonSpace(RemoveChar(t, a));
        { RemoveCharKeepsText(t, a); }
        (if IsSpace(c) then [] else head) + RemoveChar(NonSpace(t), a);
        { SpacedHeadRemoved(c, NonSpace(t), a); }
        RemoveChar(spaced + NonSpace(t), a);
        { NonSpaceCons(c, t); }
        RemoveChar(NonSpace(s), a);
      }
    }
  }

  lemma SpacedHeadRemoved(c: char, u: string, a: char)
    requires !IsSpace(a)
    ensures (if IsSpace(c) then [] else if c == a then [] else [c]) + RemoveChar(u, a)
         == RemoveChar((if IsSpace(c) then [] else [c]) + u, a)
  {
    if IsSpace(c) {
      assert [] + u == u;
      assert [] + RemoveChar(u, a) == RemoveChar(u, a);
    } else {
      RemoveCharCons(c, u, a);
    }
  }

  lemma RemoveCharCons(c: char, t: string, a: char)
    ensures RemoveChar([c] + t, a) == (if c == a then [] else [c]) + RemoveChar(t, a)
  {
    assert ([c] + t)[0] == c && ([c] + t)[1..] == t;
  }

  lemma NonSpaceCons(c: char, t: string)
    ensures NonSpace([c] + t) == (if IsSpace(c) then [] else [c]) + NonSpace(t)
  {
    assert ([c] + t)[0] == c && ([c] + t)[1..] == t;
  }

  /** ASCII lower-casing. */
  function LowerAscii(s: string): (r: string)
    ensures |r| == |s|
  {
    if s == [] then [] else [if 'A' <= s[0] <= 'Z' then (s[0] as int + 32) as char else s[0]] + LowerAscii(s[1..])
  }

  predicate NoUpperAscii(s: string) {
    forall i :: 0 <= i < |s| ==> !('A' <= s[i] <= 'Z')
  }

  /** Each letter from `A` to `Z` becomes its lower-case form; every
      other character is kept. */
  lemma {:induction false} LowerAsciiAt(s: string)
    ensures forall i :: 0 <= i < |s| ==> LowerAscii(s)[i] == if 'A' <= s[i] <= 'Z' then (s[i] as int + 32) as char else s[i]
  {
    if s != [] {
      LowerAsciiAt(s[1..]);
    }
  }

  /** Lower-casing leaves no upper-case letter, and changes nothing in a
      text that has none; so it is idempotent. */
  lemma LowerAsciiShape(s: string)
    ensures NoUpperAscii(LowerAscii(s))
    ensures NoUpperAscii(s) ==> LowerAscii(s) == s
    ensures LowerAscii(LowerAscii(s)) == LowerAscii(s)
  {
    var r := LowerAscii(s);
    LowerAsciiAt(s);
    forall i | 0 <= i < |r| ensures !('A' <= r[i] <= 'Z') {
    }
    if NoUpperAscii(r) {
      LowerAsciiAt(r);
      assert forall i :: 0 <= i < |r| ==> LowerAscii(r)[i] == r[i];
    }
    if NoUpperAscii(s) {
      assert forall i :: 0 <= i < |s| ==> r[i] == s[i];
    }
  }

  function DigitChar(d: nat): char
    requires d < 10
  {
    ('0' as int + d) as char
  }

  /** `str(n)` for a natural number. */
  function DecimalNat(n: nat): (r: string)
    ensures r != [] && AllDigits(r)
  {
    if n < 10 then [DigitChar(n)] else DecimalNat(n / 10) + [DigitChar(n % 10)]
  }

  /** `str(n)` for an integer. */
  function DecimalInt(n: int): string {
    if n < 0 then "-" + DecimalNat(-n) else DecimalNat(n)
  }

  /** The value of a run of decimal digits, as `int()` reads it. */
  function DigitsValue(s: string): nat
    requires AllDigits(s)
  {
    if s == [] then 0 else DigitsValue(s[..|s| - 1]) * 10 + (s[|s| - 1] as int - '0' as int)
  }

  /** Reading back a rendered natural number gives the number. */
  lemma {:induction false} DigitsValueDecimal(n: nat)
    ensures DigitsValue(DecimalNat(n)) == n
  {
    if n >= 10 {
      var s := DecimalNat(n);
      assert s[..|s| - 1] == DecimalNat(n / 10);
      DigitsValueDecimal(n / 10);
    }
  }
}
