/** The forum-post formatter of formatters/discord_forum.py: Markdown
    escaping of chip labels, the " | " chip list, and the title and body of
    one post built from a scraped record. */
module DiscordForum {
  import opened Text
  import opened Wrappers
  import opened PyValues

  // ---------- `_escape_md` ----------

  /** The characters `_MD_ESC` escapes: `*`, `_`, `~`, backtick, `|`, `>`. */
  predicate IsMdSpecial(c: char) {
    c == '*' || c == '_' || c == '~' || c == '`' || c == '|' || c == '>'
  }

  /** `_escape_md(s)`: a backslash goes in front of every special character;
      every other character, the backslash included, is copied. */
  function EscapeMd(s: string): (r: string)
    ensures |r| >= |s|
    ensures r != [] ==> !IsMdSpecial(r[0])
    ensures (forall i :: 0 <= i < |s| ==> !IsMdSpecial(s[i])) ==> r == s
    ensures s != [] ==> r != [] && r[|r| - 1] == s[|s| - 1]
  {
    if s == [] then []
    else
      var rest := EscapeMd(s[1..]);
      (if IsMdSpecial(s[0]) then ['\\', s[0]] else [s[0]]) + rest
  }

  /** Every special character in the escaped text has a backslash right
      before it. */
  lemma {:induction false} EscapedSpecialsPreceded(s: string)
    ensures forall i :: 0 < i < |EscapeMd(s)| && IsMdSpecial(EscapeMd(s)[i]) ==> EscapeMd(s)[i - 1] == '\\'
  {
    if s != [] {
      EscapedSpecialsPreceded(s[1..]);
      var rest := EscapeMd(s[1..]);
      var head: string := if IsMdSpecial(s[0]) then ['\\', s[0]] else [s[0]];
      assert EscapeMd(s) == head + rest;
      forall i | 0 < i < |head + rest| && IsMdSpecial((head + rest)[i])
        ensures (head + rest)[i - 1] == '\\'
      {
        if i >= |head| + 1 {
          assert (head + rest)[i] == rest[i - |head|] && (head + rest)[i - 1] == rest[i - 1 - |head|];
        }
      }
    }
  }

  /** Reads escaped text back: a backslash followed by a special character
      stands for that character; anything else stands for itself. */
  function UnescapeMd(t: string): string {
    if t == [] then []
    else if |t| >= 2 && t[0] == '\\' && IsMdSpecial(t[1]) then [t[1]] + UnescapeMd(t[2..])
    else [t[0]] + UnescapeMd(t[1..])
  }

  lemma UnescapePlain(c: char, t: string)
    requires c == '\\' ==> t == [] || !IsMdSpecial(t[0])
    ensures UnescapeMd([c] + t) == [c] + UnescapeMd(t)
  {
    var u := [c] + t;
    assert u[1..] == t;
    assert |u| >= 2 ==> u[1] == t[0];
  }

  lemma UnescapePair(c: char, t: string)
    requires IsMdSpecial(c)
    ensures UnescapeMd(['\\', c] + t) == [c] + UnescapeMd(t)
  {
    var u := ['\\', c] + t;
    assert u[2..] == t;
  }

  /** Escaping loses nothing: the original label can be read back, even
      when it holds backslashes of its own. */
  lemma {:induction false} UnescapeEscape(s: string)
    ensures UnescapeMd(EscapeMd(s)) == s
  {
    if s != [] {
      var rest := EscapeMd(s[1..]);
      UnescapeEscape(s[1..]);
      if IsMdSpecial(s[0]) {
        UnescapePair(s[0], rest);
      } else {
        assert rest != [] ==> !IsMdSpecial(rest[0]);
        UnescapePlain(s[0], rest);
      }
      assert s == [s[0]] + s[1..];
    }
  }

  // ---------- `_join` ----------

  /** The chips `_join` keeps, stripped: the items for which
      `x and x.strip()` holds. `None` when an item is truthy but not a str,
      where `x.strip()` raises `AttributeError`. */
  function ChipTexts(items: seq<Value>): Option<seq<string>> {
    if items == [] then Some([])
    else
      var x := items[0];
      var rest := ChipTexts(items[1..]);
      if !Truthy(x) then rest
      else if !x.VStr? then None
      else if Strip(x.s) == "" then rest
      else if rest.None? then None
      else Some([Strip(x.s)] + rest.value)
  }

  function EscapeAll(chips: seq<string>): (r: seq<string>)
    ensures |r| == |chips|
    ensures forall i :: 0 <= i < |r| ==> r[i] == EscapeMd(chips[i])
  {
    if chips == [] then [] else [EscapeMd(chips[0])] + EscapeAll(chips[1..])
  }

  /** The chip separator `" | "`. */
  const Bar: string := " | "

  /** `_join(xs)`: the kept chips, each stripped and escaped, joined by
      `" | "`. */
  function Join(items: seq<Value>): Option<string> {
    match ChipTexts(items)
    case None => None
    case Some(chips) => Some(JoinWith(EscapeAll(chips), Bar))
  }

  /** A kept chip is never empty and has no whitespace at either end. */
  lemma {:induction false} ChipTextsStripped(items: seq<Value>)
    requires ChipTexts(items).Some?
    ensures forall c :: c in ChipTexts(items).value ==> c != "" && Strip(c) == c
  {
    if items != [] {
      var x := items[0];
      ChipTextsStripped(items[1..]);
      if Truthy(x) && x.VStr? && Strip(x.s) != "" {
        StripIdempotent(x.s);
      }
    }
  }

  /** Kept chips of two lists put one after the other. */
  function AppendChips(a: Option<seq<string>>, b: Option<seq<string>>): Option<seq<string>> {
    if a.None? || b.None? then None else Some(a.value + b.value)
  }

  lemma {:induction false} ChipTextsConcat(a: seq<Value>, b: seq<Value>)
    ensures ChipTexts(a + b) == AppendChips(ChipTexts(a), ChipTexts(b))
  {
    if a == [] {
      assert a + b == b;
      if ChipTexts(b).Some? {
        assert [] + ChipTexts(b).value == ChipTexts(b).value;
      }
    } else {
      assert (a + b)[0] == a[0] && (a + b)[1..] == a[1..] + b;
      ChipTextsConcat(a[1..], b);
      var x := a[0];
      if Truthy(x) && x.VStr? && Strip(x.s) != "" {
        var rest := ChipTexts(a[1..]);
        if rest.Some? && ChipTexts(b).Some? {
          assert [Strip(x.s)] + (rest.value + ChipTexts(b).value) == ([Strip(x.s)] + rest.value) + ChipTexts(b).value;
        }
      }
    }
  }

  /** `_join` drops an empty, `None` or whitespace-only item wherever it
      stands. */
  lemma JoinIgnoresBlank(a: seq<Value>, x: Value, b: seq<Value>)
    requires !Truthy(x) || (x.VStr? && Strip(x.s) == "")
    ensures Join(a + [x] + b) == Join(a + b)
  {
    ChipTextsConcat(a + [x], b);
    ChipTextsConcat(a, [x]);
    ChipTextsConcat(a, b);
    assert [x][1..] == [];
    assert ChipTexts([x]) == Some([]);
    if ChipTexts(a).Some? {
      assert ChipTexts(a).value + [] == ChipTexts(a).value;
    }
  }

  /** `_join` fails exactly when some item is truthy but not a str. */
  lemma {:induction false} JoinFailsIff(items: seq<Value>)
    ensures Join(items).None? <==> exists i :: 0 <= i < |items| && Truthy(items[i]) && !items[i].VStr?
  {
    if items != [] {
      JoinFailsIff(items[1..]);
      if exists i :: 0 <= i < |items[1..]| && Truthy(items[1..][i]) && !items[1..][i].VStr? {
        var i :| 0 <= i < |items[1..]| && Truthy(items[1..][i]) && !items[1..][i].VStr?;
        assert items[i + 1] == items[1..][i];
      }
      if exists i :: 0 <= i < |items| && Truthy(items[i]) && !items[i].VStr? {
        var i :| 0 <= i < |items| && Truthy(items[i]) && !items[i].VStr?;
        if i > 0 {
          assert items[1..][i - 1] == items[i];
        }
      }
    }
  }

  // ---------- reading a chip list back ----------

  /** `t.split(" | ")`: pieces between the left-most non-overlapping
      occurrences of the separator. */
  function SplitBar(t: string): (r: seq<string>)
    ensures |r| >= 1
  {
    if t == [] then [[]]
    else if |t| >= 3 && t[..3] == Bar then [[]] + SplitBar(t[3..])
    else
      var rest := SplitBar(t[1..]);
      [[t[0]] + rest[0]] + rest[1..]
  }

  /** No `" |"` inside a piece: every `|` in it that has a predecessor has
      one other than a space. */
  predicate NoBarInside(p: string) {
    forall i :: 0 < i < |p| && p[i] == '|' ==> p[i - 1] != ' '
  }

  /** A piece that cannot run into the separator after it. */
  predicate Separable(p: string) {
    NoBarInside(p) && (p != [] ==> p[|p| - 1] != ' ')
  }

  lemma {:induction false} SplitBarPiece(p: string, u: string)
    requires Separable(p)
    ensures SplitBar(p + Bar + u) == [p] + SplitBar(u)
  {
    var t := p + Bar + u;
    if p == [] {
      assert t == Bar + u && t[..3] == Bar && t[3..] == u;
    } else {
      assert t[0] == p[0];
      if |p| >= 3 {
        assert t[..3] == p[..3];
        assert p[1] == '|' ==> p[0] != ' ';
      } else if |p| == 2 {
        assert t[..3] == [p[0], p[1], ' '];
      } else {
        assert t[..3] == [p[0], ' ', '|'];
      }
      assert t[..3] != Bar;
      assert t[1..] == p[1..] + Bar + u;
      SplitBarPiece(p[1..], u);
      assert [p[0]] + p[1..] == p;
    }
  }

  lemma {:induction false} SplitBarJoin(ps: seq<string>)
    requires |ps| >= 1
    requires forall p :: p in ps ==> Separable(p)
    ensures SplitBar(JoinWith(ps, Bar)) == ps
  {
    if |ps| == 1 {
      SplitBarNoSep(ps[0]);
    } else {
      SplitBarJoin(ps[1..]);
      SplitBarPiece(ps[0], JoinWith(ps[1..], Bar));
      assert ps == [ps[0]] + ps[1..];
    }
  }

  lemma {:induction false} SplitBarNoSep(p: string)
    requires Separable(p)
    ensures SplitBar(p) == [p]
  {
    if p != [] {
      if |p| >= 3 {
        assert p[..3] != Bar by {
          assert p[1] == '|' ==> p[0] != ' ';
        }
      }
      SplitBarNoSep(p[1..]);
      assert [p[0]] + p[1..] == p;
    }
  }

  /** An escaped, stripped, non-empty chip cannot be confused with the
      separator around it. */
  lemma EscapedSeparable(c: string)
    requires c != "" && Strip(c) == c
    ensures Separable(EscapeMd(c))
  {
    var _, _ := StripSlice(c);
    EscapedSpecialsPreceded(c);
  }

  function UnescapeAll(ps: seq<string>): (r: seq<string>)
    ensures |r| == |ps|
    ensures forall i :: 0 <= i < |r| ==> r[i] == UnescapeMd(ps[i])
  {
    if ps == [] then [] else [UnescapeMd(ps[0])] + UnescapeAll(ps[1..])
  }

  /** Reads a `_join` result back into its chips. */
  function SplitChips(t: string): seq<string> {
    if t == "" then [] else UnescapeAll(SplitBar(t))
  }

  /** The chip list can be read back: splitting `_join`'s text on `" | "`
      and unescaping each piece gives exactly the stripped, non-blank items
      in their order. */
  lemma JoinReadsBack(items: seq<Value>)
    requires Join(items).Some?
    ensures SplitChips(Join(items).value) == ChipTexts(items).value
    ensures Join(items).value == "" <==> ChipTexts(items).value == []
  {
    var chips := ChipTexts(items).value;
    ChipTextsStripped(items);
    var escaped := EscapeAll(chips);
    if chips != [] {
      assert chips[0] in chips;
      forall p | p in escaped ensures Separable(p) {
        var i :| 0 <= i < |escaped| && escaped[i] == p;
        assert chips[i] in chips;
        EscapedSeparable(chips[i]);
      }
      JoinWithNonEmpty(escaped, Bar);
      SplitBarJoin(escaped);
      forall i | 0 <= i < |chips| ensures UnescapeAll(escaped)[i] == chips[i] {
        UnescapeEscape(chips[i]);
      }
    }
  }

  // ---------- `make_title_and_body` ----------

  /** The keys a record must have, in the order they are checked. */
  const Required: seq<string> := ["trainer_id", "blue_list", "pink_list", "unique_list",
                                  "white_list", "white_count", "g1_count", "id_url"]

  /** `[k for k in keys if k not in r]` */
  function MissingFrom(keys: seq<string>, r: map<string, Value>): (m: seq<string>)
    ensures forall k :: k in m <==> k in keys && k !in r
    ensures |m| <= |keys|
  {
    if keys == [] then []
    else (if keys[0] in r then [] else [keys[0]]) + MissingFrom(keys[1..], r)
  }

  /** The missing keys are listed in the order of `keys`: a single key is
      listed iff it is absent, and the list for `a + b` is the list for `a`
      followed by the list for `b`. */
  lemma MissingFromInOrder(a: seq<string>, b: seq<string>, k: string, r: map<string, Value>)
    ensures MissingFrom([k], r) == if k in r then [] else [k]
    ensures MissingFrom(a + b, r) == MissingFrom(a, r) + MissingFrom(b, r)
  {
    assert [k][1..] == [];
    MissingFromConcat(a, b, r);
  }

  lemma {:induction false} MissingFromConcat(a: seq<string>, b: seq<string>, r: map<string, Value>)
    ensures MissingFrom(a + b, r) == MissingFrom(a, r) + MissingFrom(b, r)
  {
    if a == [] {
      assert a + b == b;
    } else {
      var k, t := a[0], a[1..];
      var head: seq<string> := if k in r then [] else [k];
      ConsSplit(a, b);
      calc {
        MissingFrom(a + b, r);
        MissingFrom([k] + (t + b), r);
        { MissingFromCons(k, t + b, r); }
        head + MissingFrom(t + b, r);
        { MissingFromConcat(t, b, r); }
        head + (MissingFrom(t, r) + MissingFrom(b, r));
        { AppendAssoc(head, MissingFrom(t, r), MissingFrom(b, r)); }
        (head + MissingFrom(t, r)) + MissingFrom(b, r);
        { MissingFromCons(k, t, r); }
        MissingFrom([k] + t, r) + MissingFrom(b, r);
        MissingFrom(a, r) + MissingFrom(b, r);
      }
    }
  }

  lemma ConsSplit(a: seq<string>, b: seq<string>)
    requires a != []
    ensures a == [a[0]] + a[1..] && a + b == [a[0]] + (a[1..] + b)
  {
  }

  lemma AppendAssoc(x: seq<string>, y: seq<string>, z: seq<string>)
    ensures x + (y + z) == (x + y) + z
  {
  }

  /** One unfolding of the filter on a list written as head and tail. */
  lemma MissingFromCons(k: string, t: seq<string>, r: map<string, Value>)
    ensures MissingFrom([k] + t, r) == (if k in r then [] else [k]) + MissingFrom(t, r)
  {
    assert ([k] + t)[0] == k && ([k] + t)[1..] == t;
  }

  /** Why no post could be built: the `ValueError` naming the missing keys,
      or a field of a type the code cannot use (`TypeError`,
      `AttributeError`, or `ValueError` from `int`). */
  datatype FormatError = MissingFields(keys: seq<string>) | BadField(key: string)

  datatype Post = Post(title: string, body: string)

  /** The eight values a post is made of, after conversion. */
  datatype Fields = Fields(trainer: string, blue: string, pink: string, uniq: string,
                           white: string, whiteCount: int, g1Count: int, url: string)

  /** What iterating over a record value gives: a list gives its items, a
      str its characters; anything else is refused. */
  function ItemsOf(v: Value): Option<seq<Value>> {
    match v
    case VList(items) => Some(items)
    case VStr(s) => Some(seq(|s|, i requires 0 <= i < |s| => VStr([s[i]])))
    case _ => None
  }

  /** `_join(v)` on a record value. */
  function JoinField(v: Value): Option<string> {
    match ItemsOf(v)
    case None => None
    case Some(items) => Join(items)
  }

  /** The part of a record value that `.strip()` can be called on. */
  function TextOf(v: Value): Option<string> {
    if v.VStr? then Some(v.s) else None
  }

  /** The conversions of `make_title_and_body`, in its order, on a record
      that has every required key. */
  function Convert(r: map<string, Value>): (res: Result<Fields, FormatError>)
    requires "trainer_id" in r && "id_url" in r
    ensures res.Failure? ==> res.error.BadField? && res.error.key in Required
  {
    var trainer :- StrOf(r["trainer_id"]).ToResult(BadField("trainer_id"));
    var blue :- JoinField(Get(r, "blue_list", VList([]))).ToResult(BadField("blue_list"));
    var pink :- JoinField(Get(r, "pink_list", VList([]))).ToResult(BadField("pink_list"));
    var uniq :- JoinField(Get(r, "unique_list", VList([]))).ToResult(BadField("unique_list"));
    var white :- JoinField(Get(r, "white_list", VList([]))).ToResult(BadField("white_list"));
    var whiteCount :- IntOf(Get(r, "white_count", VInt(0))).ToResult(BadField("white_count"));
    var g1Count :- IntOf(Get(r, "g1_count", VInt(0))).ToResult(BadField("g1_count"));
    var url :- TextOf(r["id_url"]).ToResult(BadField("id_url"));
    Success(Fields(Strip(trainer), blue, pink, uniq, white, whiteCount, g1Count, Strip(url)))
  }

  /** Whether the conversion of the `i`-th required field succeeds on `r`:
      `str()` of the trainer id, `_join` of a chip list, `int()` of a
      count, `.strip()` of the profile link. */
  predicate FieldConverts(r: map<string, Value>, i: nat)
    requires "trainer_id" in r && "id_url" in r
  {
    if i == 0 then StrOf(r["trainer_id"]).Some?
    else if i == 1 then JoinField(Get(r, "blue_list", VList([]))).Some?
    else if i == 2 then JoinField(Get(r, "pink_list", VList([]))).Some?
    else if i == 3 then JoinField(Get(r, "unique_list", VList([]))).Some?
    else if i == 4 then JoinField(Get(r, "white_list", VList([]))).Some?
    else if i == 5 then IntOf(Get(r, "white_count", VInt(0))).Some?
    else if i == 6 then IntOf(Get(r, "g1_count", VInt(0))).Some?
    else r["id_url"].VStr?
  }

  /** The conversions run in the order of `Required`: they succeed iff
      every field converts, a failure names the first field that does not,
      and on success the fields are the record's own values, the trainer id
      and the link stripped. */
  lemma ConvertOrder(r: map<string, Value>)
    requires "trainer_id" in r && "id_url" in r
    ensures Convert(r).Success? <==> forall i :: 0 <= i < |Required| ==> FieldConverts(r, i)
    ensures Convert(r).Failure? ==>
      exists i :: 0 <= i < |Required| && Convert(r).error == BadField(Required[i]) && !FieldConverts(r, i)
        && forall j :: 0 <= j < i ==> FieldConverts(r, j)
    ensures Convert(r).Success? ==>
      && StrOf(r["trainer_id"]).Some?
      && JoinField(Get(r, "blue_list", VList([]))).Some?
      && JoinField(Get(r, "pink_list", VList([]))).Some?
      && JoinField(Get(r, "unique_list", VList([]))).Some?
      && JoinField(Get(r, "white_list", VList([]))).Some?
      && IntOf(Get(r, "white_count", VInt(0))).Some?
      && IntOf(Get(r, "g1_count", VInt(0))).Some?
      && r["id_url"].VStr?
      && Convert(r).value == Fields(Strip(StrOf(r["trainer_id"]).value),
                                 JoinField(Get(r, "blue_list", VList([]))).value,
                                 JoinField(Get(r, "pink_list", VList([]))).value,
                                 JoinField(Get(r, "unique_list", VList([]))).value,
                                 JoinField(Get(r, "white_list", VList([]))).value,
                                 IntOf(Get(r, "white_count", VInt(0))).value,
                                 IntOf(Get(r, "g1_count", VInt(0))).value,
                                 Strip(r["id_url"].s))
  {
    if exists i :: 0 <= i < |Required| && !FieldConverts(r, i) {
      var i :| 0 <= i < |Required| && !FieldConverts(r, i) && forall j :: 0 <= j < i ==> FieldConverts(r, j) by {
        FirstIndex(r);
      }
      FirstFailure(r, i);
    } else {
      AllConvert(r);
    }
  }

  lemma FirstIndex(r: map<string, Value>)
    requires "trainer_id" in r && "id_url" in r
    requires exists i :: 0 <= i < |Required| && !FieldConverts(r, i)
    ensures exists i :: 0 <= i < |Required| && !FieldConverts(r, i) && forall j :: 0 <= j < i ==> FieldConverts(r, j)
  {
    var k := 0;
    while k < |Required| && FieldConverts(r, k)
      invariant 0 <= k <= |Required|
      invariant forall j :: 0 <= j < k ==> FieldConverts(r, j)
    {
      k := k + 1;
    }
  }

  /** When field `i` is the first that does not convert, `Convert` fails
      naming it. */
  lemma FirstFailure(r: map<string, Value>, i: nat)
    requires "trainer_id" in r && "id_url" in r
    requires i < |Required| && !FieldConverts(r, i)
    requires forall j :: 0 <= j < i ==> FieldConverts(r, j)
    ensures Convert(r) == Failure(BadField(Required[i]))
  {
    if i < 4 {
      EarlyFailure(r, i);
    } else {
      assert FieldConverts(r, 0) && FieldConverts(r, 1) && FieldConverts(r, 2) && FieldConverts(r, 3);
      LateFailure(r, i);
    }
  }

  lemma EarlyFailure(r: map<string, Value>, i: nat)
    requires "trainer_id" in r && "id_url" in r
    requires i < 4 && !FieldConverts(r, i)
    requires forall j :: 0 <= j < i ==> FieldConverts(r, j)
    ensures Convert(r) == Failure(BadField(Required[i]))
  {
    if i == 1 {
      assert FieldConverts(r, 0);
    } else if i == 2 {
      assert FieldConverts(r, 0) && FieldConverts(r, 1);
    } else if i == 3 {
      assert FieldConverts(r, 0) && FieldConverts(r, 1) && FieldConverts(r, 2);
    }
  }

  lemma LateFailure(r: map<string, Value>, i: nat)
    requires "trainer_id" in r && "id_url" in r
    requires 4 <= i < |Required| && !FieldConverts(r, i)
    requires FieldConverts(r, 0) && FieldConverts(r, 1) && FieldConverts(r, 2) && FieldConverts(r, 3)
    requires forall j :: 4 <= j < i ==> FieldConverts(r, j)
    ensures Convert(r) == Failure(BadField(Required[i]))
  {
    if i == 5 {
      assert FieldConverts(r, 4);
    } else if i == 6 {
      assert FieldConverts(r, 4) && FieldConverts(r, 5);
    } else if i == 7 {
      assert FieldConverts(r, 4) && FieldConverts(r, 5) && FieldConverts(r, 6);
    }
  }

  /** When every field converts, `Convert` gives the record's values. */
  lemma AllConvert(r: map<string, Value>)
    requires "trainer_id" in r && "id_url" in r
    requires forall i :: 0 <= i < |Required| ==> FieldConverts(r, i)
    ensures StrOf(r["trainer_id"]).Some?
    ensures JoinField(Get(r, "blue_list", VList([]))).Some? && JoinField(Get(r, "pink_list", VList([]))).Some?
    ensures JoinField(Get(r, "unique_list", VList([]))).Some? && JoinField(Get(r, "white_list", VList([]))).Some?
    ensures IntOf(Get(r, "white_count", VInt(0))).Some? && IntOf(Get(r, "g1_count", VInt(0))).Some?
    ensures r["id_url"].VStr?
    ensures Convert(r) == Success(Fields(Strip(StrOf(r["trainer_id"]).value),
                                 JoinField(Get(r, "blue_list", VList([]))).value,
                                 JoinField(Get(r, "pink_list", VList([]))).value,
                                 JoinField(Get(r, "unique_list", VList([]))).value,
                                 JoinField(Get(r, "white_list", VList([]))).value,
                                 IntOf(Get(r, "white_count", VInt(0))).value,
                                 IntOf(Get(r, "g1_count", VInt(0))).value,
                                 Strip(r["id_url"].s)))
  {
    assert FieldConverts(r, 0) && FieldConverts(r, 1) && FieldConverts(r, 2) && FieldConverts(r, 3);
    assert FieldConverts(r, 4) && FieldConverts(r, 5) && FieldConverts(r, 6) && FieldConverts(r, 7);
  }

  /** The record check and conversions: first the missing keys, then the
      fields one by one. A missing-keys error is given exactly when some
      required key is absent, and it names exactly the absent keys; any
      other error names a required key that is present. */
  function ReadFields(r: map<string, Value>): (res: Result<Fields, FormatError>)
    ensures res.Failure? && res.error.MissingFields? <==> exists k :: k in Required && k !in r
    ensures res.Failure? && res.error.MissingFields? ==>
      forall k :: k in res.error.keys <==> k in Required && k !in r
    ensures res.Failure? && res.error.MissingFields? ==> res.error.keys == MissingFrom(Required, r)
    ensures res.Failure? && res.error.BadField? ==> res.error.key in Required && res.error.key in r
  {
    var missing := MissingFrom(Required, r);
    if missing != [] then
      assert missing[0] in missing;
      Failure(MissingFields(missing))
    else
      assert "trainer_id" in Required && "id_url" in Required;
      Convert(r)
  }

  /** `" | ".join(x for x in [blue, pink] if x)` */
  function Sparks(blue: string, pink: string): string {
    JoinWith((if blue != "" then [blue] else []) + (if pink != "" then [pink] else []), Bar)
  }

  /** The title separator `" — "`. */
  const Dash: string := " \U{2014} "

  /** `f"White {white_count} | G1 {g1_count}"` */
  function Summary(whiteCount: int, g1Count: int): string {
    "White " + DecimalInt(whiteCount) + " | G1 " + DecimalInt(g1Count)
  }

  /** The title parts, joined by `" — "`. */
  function Title(f: Fields): string {
    var sparks := Sparks(f.blue, f.pink);
    JoinWith([f.trainer] + (if sparks != "" then [sparks] else []) + [Summary(f.whiteCount, f.g1Count)], Dash)
  }

  /** The body text before the final `.strip()`. */
  function BodyText(f: Fields): string {
    "Blue:   " + f.blue + "\n" + "Pink:   " + f.pink + "\n" + "Unique: " + f.uniq + "\n"
      + "White:  " + f.white + "\n\n" + f.url
  }

  function Body(f: Fields): string {
    Strip(BodyText(f))
  }

  /** `make_title_and_body(r)` */
  function MakeTitleAndBody(r: map<string, Value>): Result<Post, FormatError> {
    var f :- ReadFields(r);
    Success(Post(Title(f), Body(f)))
  }

  /** The sparks segment is blue and pink joined by `" | "` with an empty
      one left out, so it is absent exactly when both are empty. */
  lemma SparksCases(blue: string, pink: string)
    ensures Sparks(blue, pink) == "" <==> blue == "" && pink == ""
    ensures blue != "" && pink != "" ==> Sparks(blue, pink) == blue + Bar + pink
    ensures blue != "" && pink == "" ==> Sparks(blue, pink) == blue
    ensures blue == "" && pink != "" ==> Sparks(blue, pink) == pink
  {
    if blue != "" && pink != "" {
      assert [blue] + [pink] == [blue, pink];
      assert [blue, pink][1..] == [pink];
      assert JoinWith([pink], Bar) == pink;
      assert Sparks(blue, pink) == blue + Bar + pink;
    } else if blue != "" {
      assert [blue] + [] == [blue];
    } else if pink != "" {
      assert [] + [pink] == [pink];
    }
  }

  /** The title is the trainer id, then the blue and pink chips if there
      are any, then the White/G1 summary, joined by `" — "`. */
  lemma TitleShape(f: Fields)
    ensures var s := Summary(f.whiteCount, f.g1Count);
      Title(f) == (if f.blue == "" && f.pink == "" then f.trainer + Dash + s
                   else f.trainer + Dash + Sparks(f.blue, f.pink) + Dash + s)
    ensures f.blue != "" && f.pink != "" ==>
      Title(f) == f.trainer + Dash + f.blue + Bar + f.pink + Dash + Summary(f.whiteCount, f.g1Count)
  {
    var sparks := Sparks(f.blue, f.pink);
    var s := Summary(f.whiteCount, f.g1Count);
    SparksCases(f.blue, f.pink);
    if sparks != "" {
      assert [f.trainer] + [sparks] + [s] == [f.trainer, sparks, s];
      JoinThree(f.trainer, sparks, s, Dash);
    } else {
      assert [f.trainer] + [] + [s] == [f.trainer, s];
      JoinTwo(f.trainer, s, Dash);
    }
  }

  lemma JoinTwo(a: string, b: string, sep: string)
    ensures JoinWith([a, b], sep) == a + sep + b
  {
    assert [a, b][1..] == [b];
  }

  lemma JoinThree(a: string, b: string, c: string, sep: string)
    ensures JoinWith([a, b, c], sep) == a + sep + b + sep + c
  {
    assert [a, b, c][1..] == [b, c];
    JoinTwo(b, c, sep);
  }

  /** The body starts with the "Blue:" label, so `.strip()` only trims its
      end, and when the profile link is present nothing is trimmed: the
      body is the four labelled lines, a blank line and the link. */
  lemma BodyShape(f: Fields)
    ensures Body(f) == StripEnd(BodyText(f))
    ensures f.url != "" && !IsSpace(f.url[|f.url| - 1]) ==> Body(f) == BodyText(f)
  {
    var t := BodyText(f);
    assert t[0] == 'B';
    assert StripStart(t) == t;
    if f.url != "" && !IsSpace(f.url[|f.url| - 1]) {
      assert t[|t| - 1] == f.url[|f.url| - 1];
      StripNoop(t);
    }
  }

  /** `make_title_and_body` fails exactly when the conversions do, with
      the same error, and otherwise gives the title and body of the
      converted fields. */
  lemma MakeTitleAndBodyShape(r: map<string, Value>)
    ensures MakeTitleAndBody(r).Failure? <==> ReadFields(r).Failure?
    ensures MakeTitleAndBody(r).Failure? ==> MakeTitleAndBody(r).error == ReadFields(r).error
    ensures MakeTitleAndBody(r).Success? ==>
      var f := ReadFields(r).value;
      && MakeTitleAndBody(r).value.title == (if f.blue == "" && f.pink == "" then f.trainer + Dash + Summary(f.whiteCount, f.g1Count)
                                             else f.trainer + Dash + Sparks(f.blue, f.pink) + Dash + Summary(f.whiteCount, f.g1Count))
      && MakeTitleAndBody(r).value.body == StripEnd(BodyText(f))
  {
    if ReadFields(r).Success? {
      TitleShape(ReadFields(r).value);
      BodyShape(ReadFields(r).value);
    }
  }

  // ---------- the post made from a record ----------

  /** `make_title_and_body(r)` returns a post iff every required key is
      present and every conversion succeeds; the title then starts with the
      stripped `str(trainer_id)` and ends with the White/G1 summary of the
      record's counts, and the body holds the record's joined chip lists
      and its stripped `id_url`. */
  lemma MakeTitleAndBodyOfRecord(r: map<string, Value>)
    ensures MakeTitleAndBody(r).Success? <==>
      && (forall k :: k in Required ==> k in r)
      && "trainer_id" in r && "id_url" in r
      && forall i :: 0 <= i < |Required| ==> FieldConverts(r, i)
    ensures MakeTitleAndBody(r).Success? ==>
      && "trainer_id" in r && "id_url" in r
      && StrOf(r["trainer_id"]).Some?
      && JoinField(Get(r, "blue_list", VList([]))).Some?
      && JoinField(Get(r, "pink_list", VList([]))).Some?
      && JoinField(Get(r, "unique_list", VList([]))).Some?
      && JoinField(Get(r, "white_list", VList([]))).Some?
      && IntOf(Get(r, "white_count", VInt(0))).Some?
      && IntOf(Get(r, "g1_count", VInt(0))).Some?
      && r["id_url"].VStr?
      && var trainer := Strip(StrOf(r["trainer_id"]).value);
         var blue := JoinField(Get(r, "blue_list", VList([]))).value;
         var pink := JoinField(Get(r, "pink_list", VList([]))).value;
         var uniq := JoinField(Get(r, "unique_list", VList([]))).value;
         var white := JoinField(Get(r, "white_list", VList([]))).value;
         var summary := Summary(IntOf(Get(r, "white_count", VInt(0))).value, IntOf(Get(r, "g1_count", VInt(0))).value);
         var url := Strip(r["id_url"].s);
         && MakeTitleAndBody(r).value.title ==
              (if blue == "" && pink == "" then trainer + Dash + summary
               else trainer + Dash + Sparks(blue, pink) + Dash + summary)
         && MakeTitleAndBody(r).value.body ==
              StripEnd("Blue:   " + blue + "\n" + "Pink:   " + pink + "\n" + "Unique: " + uniq + "\n"
                       + "White:  " + white + "\n\n" + url)
  {
    var missing := MissingFrom(Required, r);
    if missing != [] {
      assert missing[0] in missing;
    } else {
      assert forall k :: k in Required ==> k in r;
      assert "trainer_id" in Required && "id_url" in Required;
      ConvertOrder(r);
      MakeTitleAndBodyShape(r);
    }
  }

  /** A list whose items are all str values. */
  predicate StrList(v: Value) {
    v.VList? && forall x :: x in v.items ==> x.VStr?
  }

  lemma {:induction false} ChipTextsOfStrs(items: seq<Value>)
    requires forall x :: x in items ==> x.VStr?
    ensures ChipTexts(items).Some?
  {
    if items != [] {
      assert forall x :: x in items[1..] ==> x in items;
      ChipTextsOfStrs(items[1..]);
    }
  }

  /** A well-formed record always gives a post: a str trainer id and link,
      four lists of str, and two int counts. */
  lemma WellFormedRecordPosts(r: map<string, Value>)
    requires forall k :: k in Required ==> k in r
    requires "trainer_id" in r && "id_url" in r
    requires r["trainer_id"].VStr? && r["id_url"].VStr?
    requires "blue_list" in r && "pink_list" in r && "unique_list" in r && "white_list" in r
    requires StrList(r["blue_list"]) && StrList(r["pink_list"]) && StrList(r["unique_list"]) && StrList(r["white_list"])
    requires "white_count" in r && "g1_count" in r
    requires r["white_count"].VInt? && r["g1_count"].VInt?
    ensures MakeTitleAndBody(r).Success?
  {
    ChipTextsOfStrs(r["blue_list"].items);
    ChipTextsOfStrs(r["pink_list"].items);
    ChipTextsOfStrs(r["unique_list"].items);
    ChipTextsOfStrs(r["white_list"].items);
    forall i | 0 <= i < |Required| ensures FieldConverts(r, i) {
    }
    MakeTitleAndBodyOfRecord(r);
  }
}
