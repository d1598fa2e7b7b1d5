/** Token normalisation of utils/state.py (`_clean_token`): a fixed pipeline
    of rewrites applied to a white-spark label before it is fingerprinted.

      1. NFKC compatibility normalisation (a parameter of the model);
      2. U+00A0 becomes a space, U+200B and U+FEFF are deleted;
      3. every whitespace run becomes one space, then the ends are stripped;
      4. whitespace before ',' is deleted;
      5. whitespace before ')' or ']' is deleted;
      6. whitespace after '(' or '[' is deleted.

    Steps 2-6 are `Tidy`. Each regular-expression substitution is modelled
    on arbitrary text, not only on the text the earlier steps produce. */
module Normalize {
  import opened Text
  import opened Wrappers

  /** NFKC normalisation (Unicode Standard Annex #15), as `unicodedata.normalize("NFKC", s)`.
      It is a parameter; the one property of it the model relies on is
      idempotence, required by the lemmas that need it. */
  type Nfkc = string -> string

  ghost predicate Idempotent(nf: Nfkc) {
    forall s :: nf(nf(s)) == nf(s)
  }

  const NBSP: char := '\U{A0}'
  const ZWSP: char := '\U{200B}'
  const BOM: char := '\U{FEFF}'

  const Comma: set<char> := {','}
  const Closers: set<char> := {')', ']'}
  const Openers: set<char> := {'(', '['}

  // ---------- the rewrite steps ----------

  /** Step 2: `s.replace(" ", " ").replace("​", "").replace("﻿", "")` */
  function Scrub(s: string): string {
    RemoveChar(RemoveChar(ReplaceChar(s, NBSP, ' '), ZWSP), BOM)
  }

  /** Step 3a: `re.sub(r"\s+", " ", s)`. `inRun` says that the text before `s`
      ended in a whitespace run that has already become a space. */
  function CollapseFrom(s: string, inRun: bool): (r: string)
    ensures OnlyBlankSpaces(r) && NoDoubleSpace(r)
    ensures inRun && r != [] ==> !IsSpace(r[0])
    ensures forall c :: c in r ==> c == ' ' || c in s
  {
    if s == [] then []
    else if IsSpace(s[0]) then
      if inRun then CollapseFrom(s[1..], true) else " " + CollapseFrom(s[1..], true)
    else [s[0]] + CollapseFrom(s[1..], false)
  }

  /** Whether the first non-whitespace character of `s` exists and is in `S`. */
  predicate FirstNonSpaceIn(s: string, S: set<char>) {
    if s == [] then false
    else if IsSpace(s[0]) then FirstNonSpaceIn(s[1..], S)
    else s[0] in S
  }

  /** Steps 4 and 5: `re.sub(r"\s+,", ",", s)` with `S` = {','} and
      `re.sub(r"\s+([)\]])", r"\1", s)` with `S` = {')', ']'}: every whitespace
      run directly followed by a character of `S` is deleted. */
  function DropSpaceBefore(s: string, S: set<char>): string {
    if s == [] then []
    else if IsSpace(s[0]) && FirstNonSpaceIn(s[1..], S) then DropSpaceBefore(s[1..], S)
    else [s[0]] + DropSpaceBefore(s[1..], S)
  }

  /** Step 6: `re.sub(r"([(\[])\s+", r"\1", s)` with `O` = {'(', '['}: every
      whitespace run directly after a character of `O` is deleted. `afterOpen`
      says that the text before `s` ended in such a character. */
  function DropSpaceAfter(s: string, O: set<char>, afterOpen: bool): string {
    if s == [] then []
    else if IsSpace(s[0]) then
      if afterOpen then DropSpaceAfter(s[1..], O, true) else [s[0]] + DropSpaceAfter(s[1..], O, false)
    else [s[0]] + DropSpaceAfter(s[1..], O, s[0] in O)
  }

  /** Steps 3-6. */
  function Arrange(s: string): string {
    var collapsed := Strip(CollapseFrom(s, false));
    var noComma := DropSpaceBefore(collapsed, Comma);
    var noClose := DropSpaceBefore(noComma, Closers);
    DropSpaceAfter(noClose, Openers, false)
  }

  /** Steps 2-6. */
  function Tidy(s: string): string {
    Arrange(Scrub(s))
  }

  /** `_clean_token(s)`: `""` for `None` or `""`, otherwise the pipeline. */
  function CleanToken(nf: Nfkc, s: Option<string>): (r: string)
    ensures s == None || s == Some("") ==> r == ""
  {
    if s == None || s.value == "" then "" else Tidy(nf(s.value))
  }

  // ---------- the shape of a cleaned token ----------

  /** Every whitespace character is a plain space. */
  predicate OnlyBlankSpaces(t: string) {
    forall i :: 0 <= i < |t| && IsSpace(t[i]) ==> t[i] == ' '
  }

  /** No two adjacent whitespace characters. */
  predicate NoDoubleSpace(t: string) {
    forall i :: 0 < i < |t| ==> !(IsSpace(t[i - 1]) && IsSpace(t[i]))
  }

  /** No whitespace immediately before a character of `S`. */
  predicate NoSpaceBefore(t: string, S: set<char>) {
    forall i :: 0 < i < |t| && t[i] in S ==> !IsSpace(t[i - 1])
  }

  /** No whitespace immediately after a character of `O`. */
  predicate NoSpaceAfter(t: string, O: set<char>) {
    forall i :: 0 < i < |t| && t[i - 1] in O ==> !IsSpace(t[i])
  }

  predicate Trimmed(t: string) {
    t != [] ==> !IsSpace(t[0]) && !IsSpace(t[|t| - 1])
  }

  predicate NoInvisibles(t: string) {
    NBSP !in t && ZWSP !in t && BOM !in t
  }

  /** What `_clean_token` promises of its output. */
  predicate TidyForm(t: string) {
    && Trimmed(t)
    && NoDoubleSpace(t)
    && OnlyBlankSpaces(t)
    && NoInvisibles(t)
    && NoSpaceBefore(t, Comma)
    && NoSpaceBefore(t, Closers)
    && NoSpaceAfter(t, Openers)
  }

  /** The shape kept between the collapse step and the end of the pipeline. */
  predicate Collapsed(t: string) {
    && OnlyBlankSpaces(t)
    && NoDoubleSpace(t)
    && NoInvisibles(t)
    && (t != [] ==> !IsSpace(t[|t| - 1]))
  }

  predicate SpaceFree(S: set<char>) {
    forall c :: c in S ==> !IsSpace(c)
  }

  // ---------- the pipeline produces the shape ----------

  lemma CollapsedTail(t: string)
    requires Collapsed(t) && t != []
    ensures Collapsed(t[1..])
    ensures IsSpace(t[0]) ==> t[1..] != [] && !IsSpace(t[1])
  {
    if IsSpace(t[0]) {
      assert |t| > 1;
      assert !(IsSpace(t[0]) && IsSpace(t[1]));
    }
    assert forall c :: c in t[1..] ==> c in t;
  }

  lemma NoSpaceBeforeTail(t: string, T: set<char>)
    requires NoSpaceBefore(t, T) && t != []
    ensures NoSpaceBefore(t[1..], T)
    ensures |t| > 1 && IsSpace(t[0]) ==> t[1] !in T
  {
    if |t| > 1 { assert t[1..][0] == t[1]; }
  }

  lemma ConsCollapsed(a: char, r: string)
    requires Collapsed(r) && a != ZWSP && a != BOM
    requires IsSpace(a) ==> a == ' ' && r != [] && !IsSpace(r[0])
    ensures Collapsed([a] + r)
  {
    var t := [a] + r;
    forall i | 0 < i < |t| ensures !(IsSpace(t[i - 1]) && IsSpace(t[i])) {
      if i > 1 { assert t[i - 1] == r[i - 2] && t[i] == r[i - 1]; }
    }
    assert forall x :: x in t ==> x == a || x in r;
  }

  lemma ConsNoSpaceBefore(a: char, r: string, T: set<char>)
    requires NoSpaceBefore(r, T)
    requires IsSpace(a) && r != [] ==> r[0] !in T
    ensures NoSpaceBefore([a] + r, T)
  {
    var t := [a] + r;
    forall i | 0 < i < |t| && t[i] in T ensures !IsSpace(t[i - 1]) {
      if i > 1 { assert t[i - 1] == r[i - 2] && t[i] == r[i - 1]; }
    }
  }

  lemma ConsNoSpaceAfter(a: char, r: string, O: set<char>)
    requires NoSpaceAfter(r, O)
    requires a in O && r != [] ==> !IsSpace(r[0])
    ensures NoSpaceAfter([a] + r, O)
  {
    var t := [a] + r;
    forall i | 0 < i < |t| && t[i - 1] in O ensures !IsSpace(t[i]) {
      if i > 1 { assert t[i - 1] == r[i - 2] && t[i] == r[i - 1]; }
    }
  }

  lemma {:induction false} DropBeforeShape(s: string, S: set<char>, T: set<char>)
    requires Collapsed(s) && SpaceFree(S)
    ensures Collapsed(DropSpaceBefore(s, S))
    ensures NoSpaceBefore(DropSpaceBefore(s, S), S)
    ensures NoSpaceBefore(s, T) ==> NoSpaceBefore(DropSpaceBefore(s, S), T)
    ensures (DropSpaceBefore(s, S) == []) == (s == [])
    ensures s != [] && !IsSpace(s[0]) ==> DropSpaceBefore(s, S)[0] == s[0]
    ensures forall c :: c in DropSpaceBefore(s, S) ==> c in s
  {
    if s != [] {
      var rest := s[1..];
      CollapsedTail(s);
      DropBeforeShape(rest, S, T);
      var r' := DropSpaceBefore(rest, S);
      if IsSpace(s[0]) {
        assert FirstNonSpaceIn(rest, S) == (rest[0] in S);
      }
      if !(IsSpace(s[0]) && FirstNonSpaceIn(rest, S)) {
        assert DropSpaceBefore(s, S) == [s[0]] + r';
        ConsCollapsed(s[0], r');
        ConsNoSpaceBefore(s[0], r', S);
        if NoSpaceBefore(s, T) {
          NoSpaceBeforeTail(s, T);
          ConsNoSpaceBefore(s[0], r', T);
        }
      } else if NoSpaceBefore(s, T) {
        NoSpaceBeforeTail(s, T);
      }
    }
  }

  lemma {:induction false} DropAfterShape(s: string, O: set<char>, afterOpen: bool, T: set<char>)
    requires Collapsed(s) && SpaceFree(O)
    ensures Collapsed(DropSpaceAfter(s, O, afterOpen))
    ensures NoSpaceAfter(DropSpaceAfter(s, O, afterOpen), O)
    ensures afterOpen && DropSpaceAfter(s, O, afterOpen) != [] ==> !IsSpace(DropSpaceAfter(s, O, afterOpen)[0])
    ensures NoSpaceBefore(s, T) ==> NoSpaceBefore(DropSpaceAfter(s, O, afterOpen), T)
    ensures (DropSpaceAfter(s, O, afterOpen) == []) == (s == [])
    ensures s != [] && !IsSpace(s[0]) ==> DropSpaceAfter(s, O, afterOpen)[0] == s[0]
    ensures forall c :: c in DropSpaceAfter(s, O, afterOpen) ==> c in s
  {
    if s != [] {
      var rest := s[1..];
      CollapsedTail(s);
      var next := if IsSpace(s[0]) then afterOpen else s[0] in O;
      DropAfterShape(rest, O, next, T);
      var r' := DropSpaceAfter(rest, O, next);
      if NoSpaceBefore(s, T) { NoSpaceBeforeTail(s, T); }
      if !(IsSpace(s[0]) && afterOpen) {
        assert DropSpaceAfter(s, O, afterOpen) == [s[0]] + r';
        ConsCollapsed(s[0], r');
        ConsNoSpaceAfter(s[0], r', O);
        if NoSpaceBefore(s, T) {
          ConsNoSpaceBefore(s[0], r', T);
        }
      }
    }
  }

  /** A slice of a `Collapsed`-like text keeps every pairwise property. */
  lemma SliceShape(c: string, lo: int, hi: int)
    requires 0 <= lo <= hi <= |c|
    requires OnlyBlankSpaces(c) && NoDoubleSpace(c) && NoInvisibles(c)
    ensures OnlyBlankSpaces(c[lo..hi]) && NoDoubleSpace(c[lo..hi]) && NoInvisibles(c[lo..hi])
  {
    var t := c[lo..hi];
    assert forall i :: 0 <= i < |t| ==> t[i] == c[lo + i];
    assert forall x :: x in t ==> x in c;
  }

  /** `Tidy` always produces a `TidyForm` text. */
  lemma TidyShape(s: string)
    ensures TidyForm(Tidy(s))
  {
    var scrubbed := Scrub(s);
    assert NBSP !in ReplaceChar(s, NBSP, ' ');
    var c := CollapseFrom(scrubbed, false);
    assert NoInvisibles(c);
    var lo, hi := StripSlice(c);
    var t := Strip(c);
    SliceShape(c, lo, hi);
    assert Collapsed(t);
    DropBeforeShape(t, Comma, Comma);
    var n1 := DropSpaceBefore(t, Comma);
    DropBeforeShape(n1, Closers, Comma);
    var n2 := DropSpaceBefore(n1, Closers);
    DropBeforeShape(n1, Closers, Closers);
    DropAfterShape(n2, Openers, false, Comma);
    DropAfterShape(n2, Openers, false, Closers);
    assert DropSpaceAfter(n2, Openers, false) == Tidy(s);
  }

  /** What `_clean_token` promises of its output: no whitespace at either
      end, no two whitespace characters in a row, only plain spaces, none of
      U+00A0, U+200B, U+FEFF, no whitespace before ',', ')' or ']' and none
      after '(' or '['. */
  lemma CleanTokenShape(nf: Nfkc, s: Option<string>)
    ensures TidyForm(CleanToken(nf, s))
  {
    if s != None && s.value != "" {
      TidyShape(nf(s.value));
    }
  }

  // ---------- the pipeline leaves its own output alone ----------

  lemma {:induction false} CollapseFixes(t: string, inRun: bool)
    requires OnlyBlankSpaces(t) && NoDoubleSpace(t)
    requires inRun && t != [] ==> !IsSpace(t[0])
    ensures CollapseFrom(t, inRun) == t
  {
    if t != [] {
      var rest := t[1..];
      assert forall i :: 0 <= i < |rest| ==> rest[i] == t[i + 1];
      if |rest| > 0 { assert !(IsSpace(t[0]) && IsSpace(t[1])); }
      CollapseFixes(rest, IsSpace(t[0]));
      assert t == [t[0]] + rest;
    }
  }

  lemma {:induction false} DropBeforeFixes(t: string, S: set<char>)
    requires Collapsed(t) && NoSpaceBefore(t, S)
    ensures DropSpaceBefore(t, S) == t
  {
    if t != [] {
      var rest := t[1..];
      CollapsedTail(t);
      NoSpaceBeforeTail(t, S);
      if IsSpace(t[0]) {
        assert FirstNonSpaceIn(rest, S) == (rest[0] in S);
      }
      DropBeforeFixes(rest, S);
      assert t == [t[0]] + rest;
    }
  }

  lemma {:induction false} DropAfterFixes(t: string, O: set<char>, afterOpen: bool)
    requires Collapsed(t) && NoSpaceAfter(t, O)
    requires afterOpen && t != [] ==> !IsSpace(t[0])
    ensures DropSpaceAfter(t, O, afterOpen) == t
  {
    if t != [] {
      var rest := t[1..];
      CollapsedTail(t);
      assert forall i :: 0 < i < |rest| ==> rest[i] == t[i + 1] && rest[i - 1] == t[i];
      if |rest| > 0 { assert rest[0] == t[1]; }
      DropAfterFixes(rest, O, if IsSpace(t[0]) then afterOpen else t[0] in O);
      assert t == [t[0]] + rest;
    }
  }

  /** A text already in `TidyForm` is a fixed point of `Tidy`. */
  lemma TidyFixes(t: string)
    requires TidyForm(t)
    ensures Tidy(t) == t
  {
    assert ReplaceChar(t, NBSP, ' ') == t;
    assert Scrub(t) == t;
    CollapseFixes(t, false);
    StripNoop(t);
    DropBeforeFixes(t, Comma);
    DropBeforeFixes(t, Closers);
    DropAfterFixes(t, Openers, false);
  }

  /** Steps 2-6 are idempotent. */
  lemma TidyIdempotent(s: string)
    ensures Tidy(Tidy(s)) == Tidy(s)
  {
    TidyShape(s);
    TidyFixes(Tidy(s));
  }

  /** `_clean_token` is idempotent on every input whose cleaned form NFKC
      leaves unchanged. */
  lemma CleanTokenIdempotent(nf: Nfkc, s: Option<string>)
    requires nf(CleanToken(nf, s)) == CleanToken(nf, s)
    ensures CleanToken(nf, Some(CleanToken(nf, s))) == CleanToken(nf, s)
  {
    var t := CleanToken(nf, s);
    if t != "" {
      CleanTokenShape(nf, s);
      TidyFixes(t);
    }
  }

  /** A normaliser that composes "e" + U+0301 into U+00E9, as NFKC does, and
      otherwise changes nothing. It is idempotent. */
  function ComposeAcute(s: string): string {
    if s == "e\U{301}" then "\U{E9}" else s
  }

  const AcuteNfkc: Nfkc := ComposeAcute

  lemma AcuteNfkcIdempotent()
    ensures Idempotent(AcuteNfkc)
  {
    forall s ensures AcuteNfkc(AcuteNfkc(s)) == AcuteNfkc(s) {
      assert "\U{E9}" != "e\U{301}";
    }
  }

  /** Idempotence of NFKC alone does not make `_clean_token` idempotent:
      deleting U+200B in step 2 puts "e" next to U+0301, which the next
      NFKC pass composes. */
  lemma CleanTokenNotIdempotentInGeneral()
    ensures Idempotent(AcuteNfkc)
    ensures CleanToken(AcuteNfkc, Some("e\U{200B}\U{301}")) == "e\U{301}"
    ensures CleanToken(AcuteNfkc, Some("e\U{301}")) == "\U{E9}"
  {
    AcuteNfkcIdempotent();
    FirstPass();
    SecondPass();
  }

  lemma FirstPass()
    ensures CleanToken(AcuteNfkc, Some("e\U{200B}\U{301}")) == "e\U{301}"
  {
    assert AcuteNfkc("e\U{200B}\U{301}") == "e\U{200B}\U{301}";
    ScrubMarked();
    BareIsTidy();
    TidyFixes("e\U{301}");
  }

  lemma ScrubMarked()
    ensures Scrub("e\U{200B}\U{301}") == Scrub("e\U{301}") == "e\U{301}"
  {
    var e, acute := 'e', '\U{301}';
    var marked, bare := [e, ZWSP, acute], [e, acute];
    assert marked == "e\U{200B}\U{301}" && bare == "e\U{301}";
    var r := ReplaceChar(marked, NBSP, ' ');
    assert r[0] == e && r[1] == ZWSP && r[2] == acute;
    assert r == marked;
    assert marked[1..] == [ZWSP, acute] && [ZWSP, acute][1..] == [acute] && [acute][1..] == [];
    assert RemoveChar([acute], ZWSP) == [acute];
    assert RemoveChar([ZWSP, acute], ZWSP) == [acute];
    assert RemoveChar(marked, ZWSP) == bare;
    assert RemoveChar(bare, BOM) == bare;
    var q := ReplaceChar(bare, NBSP, ' ');
    assert q[0] == e && q[1] == acute;
    assert q == bare;
    assert RemoveChar(bare, ZWSP) == bare;
  }

  lemma BareIsTidy()
    ensures TidyForm("e\U{301}")
  {
  }

  lemma SecondPass()
    ensures CleanToken(AcuteNfkc, Some("e\U{301}")) == "\U{E9}"
  {
    assert AcuteNfkc("e\U{301}") == "\U{E9}";
    assert TidyForm("\U{E9}");
    TidyFixes("\U{E9}");
  }

  // ---------- whitespace before an opening bracket ----------

  /** No whitespace in `w`. */
  predicate Solid(w: string) {
    forall c :: c in w ==> !IsSpace(c)
  }

  /** A non-empty word: no whitespace, bracket, comma or deleted
      invisible character. */
  predicate Word(w: string) {
    && w != []
    && forall c :: c in w ==>
         !IsSpace(c) && c !in Openers && c !in Closers && c !in Comma && c != ZWSP && c != BOM
  }

  /** Whitespace before an opening bracket is kept: steps 5 and 6 delete
      whitespace before a closing bracket and after an opening one, but no
      step deletes it before an opening bracket. So for words `x` and `y`
      "x ( y )" tidies to "x (y)", while "x(y)" is already tidy: the two
      spellings stay different. */
  lemma SpaceBeforeOpenerKept(x: string, y: string)
    requires Word(x) && Word(y)
    ensures Tidy(x + " ( " + y + " )") == x + " (" + y + ")"
    ensures Tidy(x + "(" + y + ")") == x + "(" + y + ")"
    ensures x + " (" + y + ")" != x + "(" + y + ")"
  {
    SpacedTidies(x, y);
    TightTidies(x, y);
    assert |x + " (" + y + ")"| != |x + "(" + y + ")"|;
  }

  lemma SpacedTidies(x: string, y: string)
    requires Word(x) && Word(y)
    ensures Tidy(x + " ( " + y + " )") == x + " (" + y + ")"
  {
    var s := x + " ( " + y + " )";
    var t := x + " ( " + y + ")";
    SpacedFirstSteps(x, y);
    SpacedDrops(x, y);
    TidyChain(s, t, x + " (" + y + ")");
  }

  /** Scrubbing, collapsing and stripping leave the spaced form as it is. */
  lemma SpacedFirstSteps(x: string, y: string)
    requires Word(x) && Word(y)
    ensures var s := x + " ( " + y + " )";
      Scrub(s) == s && CollapseFrom(s, false) == s && Strip(s) == s
  {
    var s := x + " ( " + y + " )";
    SpacedScrubs(x, y);
    SpacedCollapses(x, y);
    SpacedTrimmed(x, y);
    StripNoop(s);
  }

  /** The three deletions take the spaced form to "x (y)". */
  lemma SpacedDrops(x: string, y: string)
    requires Word(x) && Word(y)
    ensures var s := x + " ( " + y + " )";
      DropSpaceBefore(s, Comma) == s
    ensures var s := x + " ( " + y + " )";
      DropSpaceBefore(s, Closers) == x + " ( " + y + ")"
    ensures DropSpaceAfter(x + " ( " + y + ")", Openers, false) == x + " (" + y + ")"
  {
    var c := SpacedDropBefore(x, y, Comma);
    var t := SpacedDropBefore(x, y, Closers);
    SpacedDropAfter(x, y);
  }

  /** Tidy as the composition of its steps, for a text that the first
      four steps leave unchanged. */
  lemma TidyChain(s: string, t: string, out: string)
    requires Scrub(s) == s && CollapseFrom(s, false) == s && Strip(s) == s
    requires DropSpaceBefore(s, Comma) == s && DropSpaceBefore(s, Closers) == t
    requires DropSpaceAfter(t, Openers, false) == out
    ensures Tidy(s) == out
  {
  }

  lemma SpacedScrubs(x: string, y: string)
    requires Word(x) && Word(y)
    ensures Scrub(x + " ( " + y + " )") == x + " ( " + y + " )"
  {
    var s := x + " ( " + y + " )";
    assert forall c :: c in s ==> c in x || c in y || c == ' ' || c == '(' || c == ')';
    ScrubNoop(s);
  }

  lemma SpacedTrimmed(x: string, y: string)
    requires Word(x)
    ensures var s := x + " ( " + y + " )"; s != [] && !IsSpace(s[0]) && !IsSpace(s[|s| - 1])
  {
    assert x[0] in x;
  }

  lemma TightTidies(x: string, y: string)
    requires Word(x) && Word(y)
    ensures Tidy(x + "(" + y + ")") == x + "(" + y + ")"
  {
    var t := x + "(" + y + ")";
    assert forall c :: c in t ==> c in x || c in y || c == '(' || c == ')';
    SolidTidy(t);
    TidyFixes(t);
  }

  lemma ScrubNoop(s: string)
    requires NBSP !in s && ZWSP !in s && BOM !in s
    ensures Scrub(s) == s
  {
    assert ReplaceChar(s, NBSP, ' ') == s;
  }

  /** A text without whitespace or deleted characters is tidy. */
  lemma SolidTidy(t: string)
    requires forall c :: c in t ==> !IsSpace(c) && c != ZWSP && c != BOM
    ensures TidyForm(t)
  {
    assert forall i :: 0 <= i < |t| ==> t[i] in t;
  }

  lemma SpacedCollapses(x: string, y: string)
    requires Word(x) && Word(y)
    ensures CollapseFrom(x + " ( " + y + " )", false) == x + " ( " + y + " )"
  {
    var t4 := y + (" " + ")");
    var t2 := "(" + (" " + t4);
    var t0 := " " + t2;
    CollapseSolid(")", [], true);
    CollapseBlank(")");
    CollapseSolid(y, " " + ")", true);
    CollapseBlank(t4);
    CollapseSolid("(", " " + t4, true);
    CollapseBlank(t2);
    CollapseSolid(x, t0, false);
    assert ")" + [] == ")";
    SpacedForm(x, y);
  }

  lemma {:induction false} CollapseSolid(w: string, t: string, inRun: bool)
    requires w != [] && Solid(w)
    ensures CollapseFrom(w + t, inRun) == w + CollapseFrom(t, false)
    decreases |w|
  {
    assert w[0] in w;
    assert (w + t)[0] == w[0] && (w + t)[1..] == w[1..] + t;
    if |w| == 1 {
      assert w[1..] + t == t && w == [w[0]];
    } else {
      assert forall c :: c in w[1..] ==> c in w;
      CollapseSolid(w[1..], t, false);
      assert w == [w[0]] + w[1..];
    }
  }

  lemma CollapseBlank(t: string)
    ensures CollapseFrom(" " + t, false) == " " + CollapseFrom(t, true)
  {
    assert (" " + t)[1..] == t;
  }

  lemma {:induction false} DropBeforeSolid(w: string, t: string, S: set<char>)
    requires Solid(w)
    ensures DropSpaceBefore(w + t, S) == w + DropSpaceBefore(t, S)
    decreases |w|
  {
    if w == [] {
      assert w + t == t;
    } else {
      assert w[0] in w;
      assert (w + t)[0] == w[0] && (w + t)[1..] == w[1..] + t;
      assert forall c :: c in w[1..] ==> c in w;
      DropBeforeSolid(w[1..], t, S);
      assert w == [w[0]] + w[1..];
    }
  }

  lemma DropBeforeBlank(t: string, S: set<char>)
    requires t != [] && !IsSpace(t[0])
    ensures DropSpaceBefore(" " + t, S) == if t[0] in S then DropSpaceBefore(t, S) else " " + DropSpaceBefore(t, S)
  {
    assert (" " + t)[1..] == t;
  }

  /** The deletion of steps 4 and 5 on "x ( y )": only the space before a
      closing bracket can go. */
  lemma SpacedDropBefore(x: string, y: string, S: set<char>) returns (r: string)
    requires Word(x) && Word(y) && '(' !in S && y[0] !in S
    ensures r == if ')' in S then x + " ( " + y + ")" else x + " ( " + y + " )"
    ensures DropSpaceBefore(x + " ( " + y + " )", S) == r
  {
    var t5 := " " + ")";
    var t4 := y + t5;
    var t3 := " " + t4;
    var t2 := "(" + t3;
    var t1 := " " + t2;
    SpacedForm(x, y);
    DropBeforeSolid(")", [], S);
    assert ")" + [] == ")";
    DropBeforeBlank(")", S);
    var d5 := if ')' in S then ")" else " )";
    assert DropSpaceBefore(t5, S) == d5;
    assert y[0] in y;
    DropBeforeSolid(y, t5, S);
    assert t4[0] == y[0];
    DropBeforeBlank(t4, S);
    DropBeforeSolid("(", t3, S);
    DropBeforeBlank(t2, S);
    DropBeforeSolid(x, t1, S);
    r := x + (" " + ("(" + (" " + (y + d5))));
    if ')' in S {
      HalfSpacedForm(x, y);
    }
  }

  lemma {:induction false} DropAfterSolid(w: string, t: string, O: set<char>, afterOpen: bool)
    requires w != [] && Solid(w)
    ensures DropSpaceAfter(w + t, O, afterOpen) == w + DropSpaceAfter(t, O, w[|w| - 1] in O)
    decreases |w|
  {
    assert w[0] in w;
    assert (w + t)[0] == w[0] && (w + t)[1..] == w[1..] + t;
    if |w| == 1 {
      assert w[1..] + t == t && w == [w[0]];
    } else {
      assert forall c :: c in w[1..] ==> c in w;
      DropAfterSolid(w[1..], t, O, w[0] in O);
      assert w[1..][|w[1..]| - 1] == w[|w| - 1];
      assert w == [w[0]] + w[1..];
    }
  }

  lemma DropAfterBlank(t: string, O: set<char>, afterOpen: bool)
    ensures DropSpaceAfter(" " + t, O, afterOpen) ==
      if afterOpen then DropSpaceAfter(t, O, true) else " " + DropSpaceAfter(t, O, false)
  {
    assert (" " + t)[1..] == t;
  }

  /** The deletion of step 6 on "x ( y)": the space after "(" goes, the one
      before it stays. */
  lemma SpacedDropAfter(x: string, y: string)
    requires Word(x) && Word(y)
    ensures DropSpaceAfter(x + " ( " + y + ")", Openers, false) == x + " (" + y + ")"
  {
    var u3 := y + ")";
    var u2 := " " + u3;
    var u1 := "(" + u2;
    var u0 := " " + u1;
    HalfSpacedForm(x, y);
    assert x[|x| - 1] in x && y[|y| - 1] in y;
    CloserAlone(Openers, false);
    DropAfterSolid(y, ")", Openers, true);
    DropAfterBlank(u3, Openers, true);
    DropAfterSolid("(", u2, Openers, false);
    DropAfterBlank(u1, Openers, false);
    DropAfterSolid(x, u0, Openers, false);
    OpenSpacedForm(x, y);
  }

  lemma CloserAlone(O: set<char>, afterOpen: bool)
    ensures DropSpaceAfter(")", O, afterOpen) == ")"
  {
    assert ")"[1..] == [];
  }

  lemma SpacedForm(x: string, y: string)
    ensures x + " ( " + y + " )" == x + (" " + ("(" + (" " + (y + (" " + ")")))))
  {
    assert " ( " == " " + ("(" + " ");
    assert " )" == " " + ")";
  }

  lemma HalfSpacedForm(x: string, y: string)
    ensures x + " ( " + y + ")" == x + (" " + ("(" + (" " + (y + ")"))))
  {
    assert " ( " == " " + ("(" + " ");
  }

  lemma OpenSpacedForm(x: string, y: string)
    ensures x + " (" + y + ")" == x + (" " + ("(" + (y + ")")))
  {
    assert " (" == " " + "(";
  }

  // ---------- the text of a label survives ----------

  /** Collapsing changes whitespace only. */
  lemma {:induction false} CollapseKeepsText(s: string, inRun: bool)
    ensures NonSpace(CollapseFrom(s, inRun)) == NonSpace(s)
  {
    if s != [] {
      var c, t := s[0], s[1..];
      assert s == [c] + t;
      NonSpaceCons(c, t);
      CollapseKeepsText(t, IsSpace(c));
      if IsSpace(c) {
        if !inRun {
          NonSpaceCons(' ', CollapseFrom(t, true));
        }
      } else {
        NonSpaceCons(c, CollapseFrom(t, false));
      }
    }
  }

  /** Deleting whitespace before a set character changes whitespace only. */
  lemma {:induction false} DropBeforeKeepsText(s: string, S: set<char>)
    ensures NonSpace(DropSpaceBefore(s, S)) == NonSpace(s)
  {
    if s != [] {
      var c, t := s[0], s[1..];
      assert s == [c] + t;
      NonSpaceCons(c, t);
      DropBeforeKeepsText(t, S);
      if !(IsSpace(c) && FirstNonSpaceIn(t, S)) {
        NonSpaceCons(c, DropSpaceBefore(t, S));
      }
    }
  }

  /** Deleting whitespace after an opener changes whitespace only. */
  lemma {:induction false} DropAfterKeepsText(s: string, O: set<char>, afterOpen: bool)
    ensures NonSpace(DropSpaceAfter(s, O, afterOpen)) == NonSpace(s)
  {
    if s != [] {
      var c, t := s[0], s[1..];
      assert s == [c] + t;
      NonSpaceCons(c, t);
      var next := if IsSpace(c) then afterOpen else c in O;
      DropAfterKeepsText(t, O, next);
      if !(IsSpace(c) && afterOpen) {
        NonSpaceCons(c, DropSpaceAfter(t, O, next));
      }
    }
  }

  /** Steps 3-6 change whitespace only. */
  lemma ArrangeKeepsText(s: string)
    ensures NonSpace(Arrange(s)) == NonSpace(s)
  {
    var collapsed := Strip(CollapseFrom(s, false));
    var noComma := DropSpaceBefore(collapsed, Comma);
    var noClose := DropSpaceBefore(noComma, Closers);
    CollapseKeepsText(s, false);
    StripKeepsText(CollapseFrom(s, false));
    DropBeforeKeepsText(collapsed, Comma);
    DropBeforeKeepsText(noComma, Closers);
    DropAfterKeepsText(noClose, Openers, false);
  }

  /** Step 2 turns NBSP into a space, which is whitespace too, and deletes
      ZWSP and BOM, which are not. */
  lemma ScrubKeepsText(s: string)
    ensures NonSpace(Scrub(s)) == NonSpace(RemoveChar(RemoveChar(s, ZWSP), BOM))
  {
    var nb := ReplaceChar(s, NBSP, ' ');
    calc {
      NonSpace(Scrub(s));
      { RemoveCharKeepsText(RemoveChar(nb, ZWSP), BOM); }
      RemoveChar(NonSpace(RemoveChar(nb, ZWSP)), BOM);
      { RemoveCharKeepsText(nb, ZWSP); }
      RemoveChar(RemoveChar(NonSpace(nb), ZWSP), BOM);
      { ReplaceSpaceKeepsText(s, NBSP, ' '); }
      RemoveChar(RemoveChar(NonSpace(s), ZWSP), BOM);
      { RemoveCharKeepsText(s, ZWSP); }
      RemoveChar(NonSpace(RemoveChar(s, ZWSP)), BOM);
      { RemoveCharKeepsText(RemoveChar(s, ZWSP), BOM); }
      NonSpace(RemoveChar(RemoveChar(s, ZWSP), BOM));
    }
  }

  /** Steps 2-6 keep every character of the label other than whitespace,
      ZWSP and BOM, in order; so two labels whose remaining characters
      differ never tidy to the same token. */
  lemma TidyKeepsText(s: string, s': string)
    ensures NonSpace(Tidy(s)) == NonSpace(RemoveChar(RemoveChar(s, ZWSP), BOM))
    ensures NonSpace(RemoveChar(RemoveChar(s, ZWSP), BOM)) != NonSpace(RemoveChar(RemoveChar(s', ZWSP), BOM))
      ==> Tidy(s) != Tidy(s')
  {
    ScrubKeepsText(s);
    ArrangeKeepsText(Scrub(s));
    ScrubKeepsText(s');
    ArrangeKeepsText(Scrub(s'));
  }

  /** `_clean_token` keeps the text of the normalised label: a label whose
      NFKC form has other non-whitespace characters than another's cleans
      to a different token. */
  lemma CleanTokenKeepsText(nf: Nfkc, s: string, s': string)
    requires s != "" && s' != ""
    ensures NonSpace(CleanToken(nf, Some(s))) == NonSpace(RemoveChar(RemoveChar(nf(s), ZWSP), BOM))
    ensures NonSpace(RemoveChar(RemoveChar(nf(s), ZWSP), BOM)) != NonSpace(RemoveChar(RemoveChar(nf(s'), ZWSP), BOM))
      ==> CleanToken(nf, Some(s)) != CleanToken(nf, Some(s'))
  {
    TidyKeepsText(nf(s), nf(s'));
  }
}
