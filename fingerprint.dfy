/** The white-spark fingerprint of utils/state.py (`whites_fingerprint`):
    clean every label, drop those that clean to "", sort what is left, join
    with U+001F and hash the result. SHA-1 is a parameter; the properties are
    stated on the joined text ("blob") that is hashed. */
module Fingerprint {
  import opened Text
  import opened Wrappers
  import opened Sorting
  import opened Normalize

  /** `hashlib.sha1(text.encode("utf-8")).hexdigest()` (FIPS 180-4, section 6.1). */
  type Hash = string -> string

  /** The separator `"\x1f"`. */
  const UnitSep: char := '\U{1F}'

  /** `_clean_token` as a value, so that the list lemmas below can be
      stated for any cleaning function. */
  function Cleaner(nf: Nfkc): Option<string> -> string {
    x => CleanToken(nf, x)
  }

  /** `[clean(x) for x in xs if clean(x)]` */
  function Kept(clean: Option<string> -> string, xs: seq<Option<string>>): seq<string> {
    if xs == [] then []
    else (if clean(xs[0]) != "" then [clean(xs[0])] else []) + Kept(clean, xs[1..])
  }

  /** No kept token is empty, and there are no more tokens than labels. */
  lemma {:induction false} KeptShape(clean: Option<string> -> string, xs: seq<Option<string>>)
    ensures forall t :: t in Kept(clean, xs) ==> t != ""
    ensures |Kept(clean, xs)| <= |xs|
  {
    if xs != [] {
      KeptShape(clean, xs[1..]);
    }
  }

  /** The list of cleaned, non-empty labels `toks`. */
  function Tokens(nf: Nfkc, xs: seq<Option<string>>): seq<string> {
    Kept(Cleaner(nf), xs)
  }

  /** The text that is hashed: `"\x1f".join(sorted(toks))`, where a missing
      list (`white_list or []`) counts as empty. */
  function Blob(nf: Nfkc, whiteList: Option<seq<Option<string>>>): string {
    Joined(Tokens(nf, whiteList.GetOr([])))
  }

  /** `"\x1f".join(sorted(toks))` */
  function Joined(toks: seq<string>): string {
    JoinWith(SortStrings(toks), [UnitSep])
  }

  /** `whites_fingerprint(white_list)` */
  function WhitesFingerprint(sha1: Hash, nf: Nfkc, whiteList: Option<seq<Option<string>>>): string {
    sha1(Blob(nf, whiteList))
  }

  // ---------- the blob can be read back ----------

  /** `text.split("\x1f")`, which gives `[""]` for the empty text. */
  function SplitOn(s: string, c: char): (r: seq<string>)
    ensures |r| >= 1
  {
    if s == [] then [[]]
    else
      var rest := SplitOn(s[1..], c);
      if s[0] == c then [[]] + rest else [[s[0]] + rest[0]] + rest[1..]
  }

  /** Reads a blob back into its tokens; the empty blob has none. */
  function DecodeBlob(b: string): seq<string> {
    if b == "" then [] else SplitOn(b, UnitSep)
  }

  lemma {:induction false} SplitNoSep(t: string, c: char)
    requires c !in t
    ensures SplitOn(t, c) == [t]
  {
    if t != [] {
      SplitNoSep(t[1..], c);
      assert t == [t[0]] + t[1..];
    }
  }

  lemma {:induction false} SplitAfterPiece(t: string, c: char, u: string)
    requires c !in t
    ensures SplitOn(t + [c] + u, c) == [t] + SplitOn(u, c)
  {
    if t == [] {
      assert t + [c] + u == [c] + u;
      assert ([c] + u)[1..] == u;
    } else {
      assert (t + [c] + u)[1..] == t[1..] + [c] + u;
      SplitAfterPiece(t[1..], c, u);
      assert t == [t[0]] + t[1..];
    }
  }

  /** `split` undoes `join` when no piece holds the separator. */
  lemma {:induction false} SplitJoin(toks: seq<string>, c: char)
    requires |toks| >= 1
    requires forall t :: t in toks ==> c !in t
    ensures SplitOn(JoinWith(toks, [c]), c) == toks
  {
    if |toks| == 1 {
      SplitNoSep(toks[0], c);
    } else {
      SplitJoin(toks[1..], c);
      SplitAfterPiece(toks[0], c, JoinWith(toks[1..], [c]));
      assert toks == [toks[0]] + toks[1..];
    }
  }

  /** A cleaned token never holds the separator: U+001F is whitespace to
      Python, and the collapse step turns every whitespace run into a space. */
  lemma TokenHasNoSep(t: string)
    requires OnlyBlankSpaces(t)
    ensures UnitSep !in t
  {
    if UnitSep in t {
      var i :| 0 <= i < |t| && t[i] == UnitSep;
      assert IsSpace(t[i]);
    }
  }

  lemma {:induction false} TokensHaveNoSep(nf: Nfkc, xs: seq<Option<string>>)
    ensures forall t :: t in Kept(Cleaner(nf), xs) ==> UnitSep !in t
  {
    if xs != [] {
      TokensHaveNoSep(nf, xs[1..]);
      CleanTokenShape(nf, xs[0]);
      TokenHasNoSep(CleanToken(nf, xs[0]));
    }
  }

  /** Sorted non-empty tokens without the separator are read back from
      their join. */
  lemma JoinedDecodes(toks: seq<string>)
    requires forall t :: t in toks ==> t != "" && UnitSep !in t
    ensures DecodeBlob(Joined(toks)) == SortStrings(toks)
  {
    var sorted := SortStrings(toks);
    forall t | t in sorted ensures UnitSep !in t && t != "" {
      assert t in multiset(sorted);
      assert t in toks;
    }
    if |sorted| > 0 {
      assert sorted[0] in sorted;
      JoinWithNonEmpty(sorted, [UnitSep]);
      SplitJoin(sorted, UnitSep);
    }
  }

  /** The join of non-empty tokens is empty exactly when there are none. */
  lemma JoinedEmptyIff(toks: seq<string>)
    requires forall t :: t in toks ==> t != ""
    ensures Joined(toks) == "" <==> toks == []
  {
    var sorted := SortStrings(toks);
    if toks != [] {
      assert |sorted| == |multiset(sorted)| == |toks| > 0;
      assert sorted[0] in multiset(toks);
      assert sorted[0] in toks;
      JoinWithNonEmpty(sorted, [UnitSep]);
    }
  }

  /** The blob is exactly the sorted cleaned tokens, so it can be read back
      into them. */
  lemma BlobDecodes(nf: Nfkc, whiteList: Option<seq<Option<string>>>)
    ensures DecodeBlob(Blob(nf, whiteList)) == SortStrings(Tokens(nf, whiteList.GetOr([])))
  {
    TokensHaveNoSep(nf, whiteList.GetOr([]));
    KeptShape(Cleaner(nf), whiteList.GetOr([]));
    JoinedDecodes(Tokens(nf, whiteList.GetOr([])));
  }

  // ---------- which inputs give the same blob ----------

  lemma {:induction false} KeptConcat(clean: Option<string> -> string, a: seq<Option<string>>, b: seq<Option<string>>)
    ensures Kept(clean, a + b) == Kept(clean, a) + Kept(clean, b)
  {
    if a != [] {
      assert (a + b)[0] == a[0] && (a + b)[1..] == a[1..] + b;
      KeptConcat(clean, a[1..], b);
      var h := if clean(a[0]) != "" then [clean(a[0])] else [];
      assert Kept(clean, a + b) == h + Kept(clean, a[1..] + b);
      assert Kept(clean, a) == h + Kept(clean, a[1..]);
    } else {
      assert a + b == b;
    }
  }

  /** Taking out one label takes out its token, if it has one. */
  lemma KeptRemove(clean: Option<string> -> string, b: seq<Option<string>>, j: int)
    requires 0 <= j < |b|
    ensures multiset(Kept(clean, b)) == multiset(Kept(clean, [b[j]])) + multiset(Kept(clean, b[..j] + b[j + 1..]))
  {
    var pre, x, post := b[..j], [b[j]], b[j + 1..];
    assert b == pre + (x + post);
    KeptSplit3(clean, pre, x, post);
    KeptConcat(clean, pre, post);
    MultisetConcat3(Kept(clean, pre), Kept(clean, x), Kept(clean, post));
  }

  lemma KeptSplit3(clean: Option<string> -> string, a: seq<Option<string>>, x: seq<Option<string>>, b: seq<Option<string>>)
    ensures Kept(clean, a + (x + b)) == Kept(clean, a) + (Kept(clean, x) + Kept(clean, b))
  {
    KeptConcat(clean, a, x + b);
    KeptConcat(clean, x, b);
  }

  lemma MultisetConcat3(a: seq<string>, x: seq<string>, b: seq<string>)
    ensures multiset(a + (x + b)) == multiset(x) + multiset(a + b)
  {
  }

  lemma MultisetRemove(b: seq<Option<string>>, j: int)
    requires 0 <= j < |b|
    ensures multiset(b[..j] + b[j + 1..]) == multiset(b) - multiset{b[j]}
  {
    assert b == b[..j] + [b[j]] + b[j + 1..];
  }

  /** Reordering the labels reorders the tokens and nothing more. */
  lemma {:induction false} KeptPermutation(clean: Option<string> -> string, a: seq<Option<string>>, b: seq<Option<string>>)
    requires multiset(a) == multiset(b)
    ensures multiset(Kept(clean, a)) == multiset(Kept(clean, b))
  {
    if a == [] {
      assert |b| == |multiset(b)| == 0;
    } else {
      assert a[0] in multiset(b);
      var j :| 0 <= j < |b| && b[j] == a[0];
      var a', b' := a[1..], b[..j] + b[j + 1..];
      MultisetRemove(b, j);
      assert a == [a[0]] + a';
      assert multiset(a') == multiset(a) - multiset{a[0]};
      KeptPermutation(clean, a', b');
      KeptRemove(clean, b, j);
      KeptConcat(clean, [a[0]], a');
    }
  }

  /** The fingerprint does not depend on the order of the labels. */
  lemma FingerprintOrderInsensitive(sha1: Hash, nf: Nfkc, a: seq<Option<string>>, b: seq<Option<string>>)
    requires multiset(a) == multiset(b)
    ensures Blob(nf, Some(a)) == Blob(nf, Some(b))
    ensures WhitesFingerprint(sha1, nf, Some(a)) == WhitesFingerprint(sha1, nf, Some(b))
  {
    KeptPermutation(Cleaner(nf), a, b);
    SortStringsPermutation(Tokens(nf, a), Tokens(nf, b));
  }

  /** A label that cleans to "" contributes no token. */
  lemma KeptSkipsBlank(clean: Option<string> -> string, a: seq<Option<string>>, x: Option<string>, b: seq<Option<string>>)
    requires clean(x) == ""
    ensures Kept(clean, a + [x] + b) == Kept(clean, a + b)
  {
    KeptConcat(clean, a + [x], b);
    KeptConcat(clean, a, [x]);
    KeptConcat(clean, a, b);
    assert Kept(clean, [x]) == [];
  }

  /** A label that cleans to "" has no effect wherever it stands. */
  lemma FingerprintIgnoresBlank(sha1: Hash, nf: Nfkc, a: seq<Option<string>>, x: Option<string>, b: seq<Option<string>>)
    requires CleanToken(nf, x) == ""
    ensures Blob(nf, Some(a + [x] + b)) == Blob(nf, Some(a + b))
    ensures WhitesFingerprint(sha1, nf, Some(a + [x] + b)) == WhitesFingerprint(sha1, nf, Some(a + b))
  {
    KeptSkipsBlank(Cleaner(nf), a, x, b);
  }

  /** The blob is empty exactly when no label survives cleaning; in
      particular a missing or empty list hashes the empty text. */
  lemma BlobEmptyIff(nf: Nfkc, whiteList: Option<seq<Option<string>>>)
    ensures Blob(nf, whiteList) == "" <==> Tokens(nf, whiteList.GetOr([])) == []
    ensures Blob(nf, None) == "" && Blob(nf, Some([])) == ""
  {
    KeptShape(Cleaner(nf), whiteList.GetOr([]));
    JoinedEmptyIff(Tokens(nf, whiteList.GetOr([])));
  }

  /** Two lists give the same blob exactly when they clean to the same
      multiset of tokens. */
  lemma BlobEqualIff(nf: Nfkc, a: Option<seq<Option<string>>>, b: Option<seq<Option<string>>>)
    ensures Blob(nf, a) == Blob(nf, b) <==> multiset(Tokens(nf, a.GetOr([]))) == multiset(Tokens(nf, b.GetOr([])))
  {
    var ta, tb := Tokens(nf, a.GetOr([])), Tokens(nf, b.GetOr([]));
    if multiset(ta) == multiset(tb) {
      SortStringsPermutation(ta, tb);
    }
    if Blob(nf, a) == Blob(nf, b) {
      BlobDecodes(nf, a);
      BlobDecodes(nf, b);
      assert SortStrings(ta) == SortStrings(tb);
    }
  }

  /** Duplicates are kept: a label twice does not give the blob of the
      label once. */
  lemma BlobKeepsDuplicates(nf: Nfkc, x: Option<string>)
    requires CleanToken(nf, x) != ""
    ensures Blob(nf, Some([x, x])) != Blob(nf, Some([x]))
  {
    var t := CleanToken(nf, x);
    var clean := Cleaner(nf);
    assert clean(x) == t;
    assert [x, x][1..] == [x] && [x][1..] == [];
    assert Kept(clean, []) == [];
    assert Tokens(nf, [x]) == [t];
    assert Tokens(nf, [x, x]) == [t, t];
    assert multiset([t, t]) != multiset([t]);
    BlobEqualIff(nf, Some([x, x]), Some([x]));
  }

  // ---------- spacing inside brackets ----------

  /** A list holding one label that cleans to a non-empty token hashes
      exactly that token. */
  lemma OneTokenBlob(nf: Nfkc, a: string)
    requires CleanToken(nf, Some(a)) != ""
    ensures Blob(nf, Some([Some(a)])) == CleanToken(nf, Some(a))
  {
    var t := CleanToken(nf, Some(a));
    var clean := Cleaner(nf);
    assert clean(Some(a)) == t;
    assert [Some(a)][1..] == [];
    assert Kept(clean, [Some(a)]) == [t] + Kept(clean, []);
    SortOne(t);
  }

  lemma SortOne(t: string)
    ensures SortStrings([t]) == [t]
  {
    var r := SortStrings([t]);
    assert multiset(r) == multiset{t};
    assert |r| == 1 && r[0] in multiset(r);
  }

  /** Spacing inside brackets is not cosmetic: for words `x` and `y`, and
      an NFKC that leaves both spellings alone (as it does ASCII text),
      "x ( y )" and "x(y)" hash different texts, because the space before
      the opening bracket survives cleaning. */
  lemma SpacedBracketsDiffer(nf: Nfkc, x: string, y: string)
    requires Word(x) && Word(y)
    requires nf(x + " ( " + y + " )") == x + " ( " + y + " )"
    requires nf(x + "(" + y + ")") == x + "(" + y + ")"
    ensures Blob(nf, Some([Some(x + " ( " + y + " )")])) == x + " (" + y + ")"
    ensures Blob(nf, Some([Some(x + "(" + y + ")")])) == x + "(" + y + ")"
    ensures Blob(nf, Some([Some(x + " ( " + y + " )")])) != Blob(nf, Some([Some(x + "(" + y + ")")]))
  {
    SpaceBeforeOpenerKept(x, y);
    OneTokenBlob(nf, x + " ( " + y + " )");
    OneTokenBlob(nf, x + "(" + y + ")");
  }

  /** The instance "Foo ( Bar )" against "Foo(Bar)". */
  lemma FooBarSpacingMatters(nf: Nfkc)
    requires nf("Foo ( Bar )") == "Foo ( Bar )" && nf("Foo(Bar)") == "Foo(Bar)"
    ensures Blob(nf, Some([Some("Foo ( Bar )")])) == "Foo (Bar)"
    ensures Blob(nf, Some([Some("Foo(Bar)")])) == "Foo(Bar)"
  {
    assert "Foo" + " ( " + "Bar" + " )" == "Foo ( Bar )";
    assert "Foo" + "(" + "Bar" + ")" == "Foo(Bar)";
    assert "Foo" + " (" + "Bar" + ")" == "Foo (Bar)";
    assert Word("Foo") && Word("Bar");
    SpacedBracketsDiffer(nf, "Foo", "Bar");
  }
}
