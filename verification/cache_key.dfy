/**
 The caches' keys: the query in normal form, the access scope, the limit and the cache version in
 one string (whose digest is modelled by the string itself).
 */
module CacheKey {
  import opened Wrappers
  import opened Text

  /**
   Lower-casing, the class `\w`, and the value of a decimal digit of any script (no digit if not in
   0..9), character by character.
   */
  datatype Alphabet = Alphabet(lower: char -> char, isWord: char -> bool, digit: char -> int)

  ghost predicate Sound(a: Alphabet) {
    && (forall c :: a.lower(a.lower(c)) == a.lower(c))
    && (forall c :: IsSpace(c) ==> a.lower(c) == c && !a.isWord(c))
    && !a.isWord('|')
  }

  // ---- _normalize ----

  function Lower(a: Alphabet, s: string): (r: string)
    ensures |r| == |s|
  {
    if s == "" then "" else [a.lower(s[0])] + Lower(a, s[1..])
  }

  /** `re.sub(r"[^\w\s]", " ", s)`. */
  function Mask(a: Alphabet, s: string): (r: string)
    ensures |r| == |s|
  {
    if s == "" then ""
    else [if a.isWord(s[0]) || IsSpace(s[0]) then s[0] else ' '] + Mask(a, s[1..])
  }

  /** `re.sub(r"\s+", " ", s)`. */
  function Collapse(s: string): string
    decreases |s|
  {
    if s == "" then ""
    else if IsSpace(s[0]) then " " + Collapse(StripLeft(s[1..]))
    else [s[0]] + Collapse(s[1..])
  }

  function Normalize(a: Alphabet, query: string): string {
    Strip(Collapse(Mask(a, Lower(a, Strip(query)))))
  }

  // ---- The meaning of the normal form ----

  /** Length of the run of word characters at the front. */
  function Run(a: Alphabet, s: string): (n: nat)
    ensures n <= |s|
  {
    if s == "" || !a.isWord(s[0]) then 0 else 1 + Run(a, s[1..])
  }

  /** The maximal runs of word characters, in order. */
  function Words(a: Alphabet, s: string): seq<string>
    decreases |s|
  {
    if s == "" then []
    else if !a.isWord(s[0]) then Words(a, s[1..])
    else [s[..Run(a, s)]] + Words(a, s[Run(a, s)..])
  }

  ghost predicate IsWordString(a: Alphabet, w: string) {
    w != "" && forall i :: 0 <= i < |w| ==> a.isWord(w[i])
  }

  ghost predicate AllWords(a: Alphabet, ws: seq<string>) {
    forall k :: 0 <= k < |ws| ==> IsWordString(a, ws[k])
  }

  ghost predicate NoWord(a: Alphabet, s: string) {
    forall i :: 0 <= i < |s| ==> !a.isWord(s[i])
  }

  lemma {:induction false} RunMeaning(a: Alphabet, s: string)
    ensures var n := Run(a, s);
            && (forall i :: 0 <= i < n ==> a.isWord(s[i]))
            && (n < |s| ==> !a.isWord(s[n]))
  {
    if s != "" && a.isWord(s[0]) {
      RunMeaning(a, s[1..]);
    }
  }

  lemma {:induction false} RunOfWord(a: Alphabet, w: string, rest: string)
    requires (forall i :: 0 <= i < |w| ==> a.isWord(w[i])) && (rest == "" || !a.isWord(rest[0]))
    ensures Run(a, w + rest) == |w|
  {
    if w == "" {
      assert w + rest == rest;
    } else {
      assert (w + rest)[1..] == w[1..] + rest;
      RunOfWord(a, w[1..], rest);
    }
  }

  /** A word followed by anything that does not continue it is the first word. */
  lemma WordsCons(a: Alphabet, w: string, rest: string)
    requires IsWordString(a, w) && (rest == "" || !a.isWord(rest[0]))
    ensures Words(a, w + rest) == [w] + Words(a, rest)
  {
    RunOfWord(a, w, rest);
    assert (w + rest)[..|w|] == w && (w + rest)[|w|..] == rest;
  }

  lemma {:induction false} WordsAreWords(a: Alphabet, s: string)
    ensures AllWords(a, Words(a, s))
    decreases |s|
  {
    if s != "" {
      if a.isWord(s[0]) {
        RunMeaning(a, s);
        WordsAreWords(a, s[Run(a, s)..]);
      } else {
        WordsAreWords(a, s[1..]);
      }
    }
  }

  lemma {:induction false} WordsSkip(a: Alphabet, gap: string, rest: string)
    requires NoWord(a, gap)
    ensures Words(a, gap + rest) == Words(a, rest)
  {
    if gap == "" {
      assert gap + rest == rest;
    } else {
      assert (gap + rest)[1..] == gap[1..] + rest;
      WordsSkip(a, gap[1..], rest);
    }
  }

  lemma {:induction false} WordsDrop(a: Alphabet, s: string, gap: string)
    requires NoWord(a, gap)
    ensures Words(a, s + gap) == Words(a, s)
    decreases |s|
  {
    if s == "" {
      WordsSkip(a, gap, "");
      assert gap + "" == gap && s + gap == gap;
    } else if a.isWord(s[0]) {
      RunMeaning(a, s);
      var n := Run(a, s);
      WordsDrop(a, s[n..], gap);
      assert s + gap == s[..n] + (s[n..] + gap);
      WordsCons(a, s[..n], s[n..] + gap);
    } else {
      assert (s + gap)[1..] == s[1..] + gap;
      WordsDrop(a, s[1..], gap);
    }
  }

  lemma {:induction false} LowerConcat(a: Alphabet, s: string, t: string)
    ensures Lower(a, s + t) == Lower(a, s) + Lower(a, t)
  {
    if s == "" {
      assert s + t == t;
    } else {
      assert (s + t)[1..] == s[1..] + t;
      LowerConcat(a, s[1..], t);
    }
  }

  lemma {:induction false} LowerBlank(a: Alphabet, s: string)
    requires Sound(a) && Blank(s)
    ensures NoWord(a, Lower(a, s))
  {
    if s != "" {
      LowerBlank(a, s[1..]);
    }
  }

  /** Stripping the query first does not change its words. */
  lemma StripKeepsWords(a: Alphabet, s: string)
    requires Sound(a)
    ensures Words(a, Lower(a, Strip(s))) == Words(a, Lower(a, s))
  {
    var i, j := StripCuts(s);
    assert s == s[..i] + (s[i..j] + s[j..]);
    LowerConcat(a, s[..i], s[i..j] + s[j..]);
    LowerConcat(a, s[i..j], s[j..]);
    LowerBlank(a, s[..i]);
    LowerBlank(a, s[j..]);
    WordsSkip(a, Lower(a, s[..i]), Lower(a, s[i..j]) + Lower(a, s[j..]));
    WordsDrop(a, Lower(a, s[i..j]), Lower(a, s[j..]));
  }

  /** Masking keeps the words; what is left between them is white space. */
  ghost predicate Masked(a: Alphabet, s: string) {
    forall i :: 0 <= i < |s| ==> (a.isWord(s[i]) <==> !IsSpace(s[i]))
  }

  lemma {:induction false} MaskMeaning(a: Alphabet, s: string)
    requires Sound(a)
    ensures Masked(a, Mask(a, s))
    ensures forall i :: 0 <= i < |s| ==> if a.isWord(s[i]) then Mask(a, s)[i] == s[i] else !a.isWord(Mask(a, s)[i])
  {
    if s != "" {
      MaskMeaning(a, s[1..]);
    }
  }

  /** `t` has the word characters of `s` where `s` has them, and no others. */
  ghost predicate Alike(a: Alphabet, s: string, t: string) {
    |s| == |t| && forall i :: 0 <= i < |s| ==> if a.isWord(s[i]) then t[i] == s[i] else !a.isWord(t[i])
  }

  lemma AlikeFrom(a: Alphabet, s: string, t: string, n: nat)
    requires Alike(a, s, t) && n <= |s|
    ensures Alike(a, s[n..], t[n..])
  {
    forall i | 0 <= i < |s[n..]| ensures if a.isWord(s[n..][i]) then t[n..][i] == s[n..][i] else !a.isWord(t[n..][i]) {
      assert s[n..][i] == s[n + i] && t[n..][i] == t[n + i];
    }
  }

  lemma {:induction false} SameWords(a: Alphabet, s: string, t: string)
    requires Alike(a, s, t)
    ensures Words(a, s) == Words(a, t)
    decreases |s|
  {
    if s != "" {
      if a.isWord(s[0]) {
        RunMeaning(a, s);
        var n := Run(a, s);
        assert s[..n] == t[..n];
        AlikeFrom(a, s, t, n);
        SameWords(a, s[n..], t[n..]);
        assert t == t[..n] + t[n..];
        WordsCons(a, t[..n], t[n..]);
      } else {
        AlikeFrom(a, s, t, 1);
        SameWords(a, s[1..], t[1..]);
      }
    }
  }

  function Spaced(ws: seq<string>): string { Join(" ", ws) }

  lemma {:induction false} CollapseWord(a: Alphabet, w: string, rest: string)
    requires Sound(a) && forall i :: 0 <= i < |w| ==> a.isWord(w[i])
    ensures Collapse(w + rest) == w + Collapse(rest)
  {
    if w == "" {
      assert w + rest == rest;
    } else {
      assert (w + rest)[1..] == w[1..] + rest;
      CollapseWord(a, w[1..], rest);
    }
  }

  /** A space if the string begins (ends) with white space. */
  function Front(s: string): string { if s != "" && IsSpace(s[0]) then " " else "" }

  function Back(s: string): string { if s != "" && IsSpace(s[|s| - 1]) then " " else "" }

  /** `r` is the words of `s`, spaced, with a space at an end where `s` has white space. */
  ghost predicate Spacing(a: Alphabet, s: string, r: string) {
    r == if Words(a, s) == [] then Front(s) else Front(s) + Spaced(Words(a, s)) + Back(s)
  }

  lemma {:induction false} CollapseSpaces(a: Alphabet, s: string)
    requires Sound(a) && Masked(a, s)
    ensures Spacing(a, s, Collapse(s))
    decreases |s|
  {
    if s == "" {
    } else if IsSpace(s[0]) {
      var t := StripLeft(s[1..]);
      GapRest(a, s, t);
      CollapseSpaces(a, t);
      CollapseGap(a, s, t, Collapse(t));
    } else {
      RunMeaning(a, s);
      var t := s[Run(a, s)..];
      CollapseSpaces(a, t);
      CollapseRun(a, s, s[..Run(a, s)], t);
    }
  }

  /** White space in front of `t`. */
  lemma GapRest(a: Alphabet, s: string, t: string)
    requires Sound(a) && Masked(a, s) && s != "" && IsSpace(s[0]) && t == StripLeft(s[1..])
    ensures Masked(a, t) && Words(a, s) == Words(a, t) && (t != "" ==> Words(a, t) != [] && Back(s) == Back(t))
  {
    StripLeftCuts(s);
    var gap := s[..|s| - |t|];
    assert s == gap + t;
    WordsSkip(a, gap, t);
    assert t != "" ==> a.isWord(t[0]) && t[|t| - 1] == s[|s| - 1];
  }

  lemma CollapseGap(a: Alphabet, s: string, t: string, r: string)
    requires Sound(a) && Masked(a, s) && s != "" && IsSpace(s[0]) && t == StripLeft(s[1..])
    requires Spacing(a, t, r)
    ensures Spacing(a, s, " " + r)
  {
    GapRest(a, s, t);
    if t == "" {
      assert " " + "" == " ";
    } else {
      StripLeftCuts(s);
      assert Front(t) == "" && Front(s) == " ";
      PutGap(Spaced(Words(a, t)), Back(t), r);
    }
  }

  lemma PutGap(middle: string, back: string, r: string)
    requires r == "" + middle + back
    ensures " " + r == " " + middle + back
  {
  }

  /** A word in front of `t`. */
  lemma CollapseRun(a: Alphabet, s: string, w: string, t: string)
    requires Sound(a) && Masked(a, s) && s == w + t && IsWordString(a, w) && (t == "" || !a.isWord(t[0]))
    requires Spacing(a, t, Collapse(t))
    ensures Spacing(a, s, Collapse(s))
  {
    CollapseWord(a, w, t);
    WordsCons(a, w, t);
    var ws, rest := Words(a, t), Collapse(t);
    SpacedCons(w, ws);
    assert s[0] == w[0] && Front(s) == "";
    if t == "" {
      assert s[|s| - 1] == w[|w| - 1] && Back(s) == "";
      assert w + "" == "" + w + "";
    } else {
      assert s[|s| - 1] == t[|t| - 1] && t[0] == s[|w|];
      assert Front(t) == " " && Back(s) == Back(t);
      if ws == [] {
        BlankWithoutWords(a, t);
        assert w + " " == "" + w + " ";
      } else {
        Regather(w, Spaced(ws), Back(t));
      }
    }
  }

  lemma Regather(w: string, middle: string, back: string)
    ensures w + (" " + middle + back) == "" + (w + " " + middle) + back
  {
  }

  lemma {:induction false} BlankWithoutWords(a: Alphabet, t: string)
    requires Masked(a, t) && Words(a, t) == []
    ensures Blank(t)
  {
    if t != "" {
      BlankWithoutWords(a, t[1..]);
    }
  }

  lemma SpacedCons(w: string, ws: seq<string>)
    ensures Spaced([w] + ws) == if ws == [] then w else w + " " + Spaced(ws)
  {
    assert ([w] + ws)[1..] == ws;
  }

  lemma {:induction false} SpacedTrimmed(a: Alphabet, ws: seq<string>)
    requires Sound(a) && AllWords(a, ws) && ws != []
    ensures Trimmed(Spaced(ws))
  {
    assert IsWordString(a, ws[0]);
    if |ws| > 1 {
      SpacedTrimmed(a, ws[1..]);
    }
  }

  /** The normal form is the lowercased query's words, separated by single spaces. */
  lemma NormalFormIsWords(a: Alphabet, query: string)
    requires Sound(a)
    ensures Normalize(a, query) == Spaced(Words(a, Lower(a, query)))
  {
    var lowered := Lower(a, Strip(query));
    var masked := Mask(a, lowered);
    MaskMeaning(a, lowered);
    SameWords(a, lowered, masked);
    StripKeepsWords(a, query);
    CollapseSpaces(a, masked);
    var ws := Words(a, masked);
    WordsAreWords(a, masked);
    if ws == [] {
      StripOne();
    } else {
      SpacedTrimmed(a, ws);
      StripPadded(Front(masked), Spaced(ws), Back(masked));
    }
  }

  lemma StripOne()
    ensures Strip(" ") == "" && Strip("") == ""
  {
    assert StripRight(" ") == StripRight(" "[..0]);
  }

  lemma StripPadded(front: string, s: string, back: string)
    requires front in {"", " "} && back in {"", " "} && Trimmed(s)
    ensures Strip(front + s + back) == s
  {
    var t := front + s;
    if back == " " {
      assert (t + back)[..|t|] == t;
    } else {
      assert t + back == t;
    }
    assert StripRight(t + back) == t;
    assert StripLeft(s) == s;
    if front == " " {
      assert t[0] == ' ' && t[1..] == s;
      assert StripLeft(t) == s;
    } else {
      assert t == s;
    }
  }

  /** Splitting the normal form into words gives the words back. */
  lemma {:induction false} WordsOfSpaced(a: Alphabet, ws: seq<string>)
    requires Sound(a) && AllWords(a, ws)
    ensures Words(a, Spaced(ws)) == ws
  {
    if ws != [] {
      var w, rest := ws[0], ws[1..];
      assert ws == [w] + rest && IsWordString(a, w);
      SpacedCons(w, rest);
      WordsOfSpaced(a, rest);
      if rest == [] {
        WordsCons(a, w, "");
        assert w + "" == w;
      } else {
        assert w + " " + Spaced(rest) == w + (" " + Spaced(rest));
        WordsCons(a, w, " " + Spaced(rest));
        WordsSkip(a, " ", Spaced(rest));
      }
    }
  }

  lemma {:induction false} LowerTwice(a: Alphabet, s: string)
    requires Sound(a)
    ensures Lower(a, Lower(a, s)) == Lower(a, s)
  {
    if s != "" {
      LowerTwice(a, s[1..]);
    }
  }

  ghost predicate IsLower(a: Alphabet, s: string) { Lower(a, s) == s }

  lemma {:induction false} LowerPart(a: Alphabet, s: string, i: nat, j: nat)
    requires i <= j <= |s| && IsLower(a, s)
    ensures IsLower(a, s[i..j])
  {
    assert s == s[..i] + (s[i..j] + s[j..]);
    LowerConcat(a, s[..i], s[i..j] + s[j..]);
    LowerConcat(a, s[i..j], s[j..]);
  }

  lemma {:induction false} SpacedWordsLower(a: Alphabet, s: string)
    requires Sound(a) && IsLower(a, s)
    ensures IsLower(a, Spaced(Words(a, s)))
    decreases |s|
  {
    if s != "" {
      if a.isWord(s[0]) {
        var n := Run(a, s);
        LowerPart(a, s, 0, n);
        LowerPart(a, s, n, |s|);
        assert s[n..|s|] == s[n..] && s[0..n] == s[..n];
        SpacedWordsLower(a, s[n..]);
        SpacedCons(s[..n], Words(a, s[n..]));
        LowerConcat(a, s[..n] + " ", Spaced(Words(a, s[n..])));
        LowerConcat(a, s[..n], " ");
      } else {
        LowerPart(a, s, 1, |s|);
        assert s[1..|s|] == s[1..];
        SpacedWordsLower(a, s[1..]);
      }
    }
  }

  /** Normalizing is idempotent. */
  lemma NormalizeTwice(a: Alphabet, query: string)
    requires Sound(a)
    ensures Normalize(a, Normalize(a, query)) == Normalize(a, query)
  {
    var lowered := Lower(a, query);
    NormalFormIsWords(a, query);
    NormalFormIsWords(a, Normalize(a, query));
    LowerTwice(a, query);
    SpacedWordsLower(a, lowered);
    WordsAreWords(a, lowered);
    WordsOfSpaced(a, Words(a, lowered));
  }

  /** Two queries share a normal form exactly when their lowercased words are the same. */
  lemma SameNormalFormExactlyWhen(a: Alphabet, p: string, q: string)
    requires Sound(a)
    ensures Normalize(a, p) == Normalize(a, q) <==> Words(a, Lower(a, p)) == Words(a, Lower(a, q))
  {
    NormalFormIsWords(a, p);
    NormalFormIsWords(a, q);
    WordsAreWords(a, Lower(a, p));
    WordsAreWords(a, Lower(a, q));
    WordsOfSpaced(a, Words(a, Lower(a, p)));
    WordsOfSpaced(a, Words(a, Lower(a, q)));
  }

  // ---- Keys ----

  const BAR: char := '|'

  function Digit(n: nat): char
    requires n < 10
  {
    ['0', '1', '2', '3', '4', '5', '6', '7', '8', '9'][n]
  }

  /** `str(n)`. */
  function Decimal(n: nat): string {
    if n < 10 then [Digit(n)] else Decimal(n / 10) + [Digit(n % 10)]
  }

  function Signed(i: int): string { if i < 0 then "-" + Decimal(-i) else Decimal(i) }

  /** The user's identifier, or the public scope for none and for the empty one. */
  function Scope(user: Option<string>): string {
    if user.None? || user.value == "" then "public" else user.value
  }

  ghost predicate NoBar(s: string) { forall i :: 0 <= i < |s| ==> s[i] != BAR }

  lemma {:induction false} DecimalMeaning(n: nat)
    ensures NoBar(Decimal(n)) && Decimal(n) != "" && Decimal(n)[0] != '-'
  {
    if n >= 10 {
      DecimalMeaning(n / 10);
    }
  }

  lemma DecimalParts(n: nat)
    ensures var s := Decimal(n);
            && s != "" && s[|s| - 1] == Digit(n % 10) && (n >= 10 <==> |s| > 1)
            && (n >= 10 ==> s[..|s| - 1] == Decimal(n / 10))
  {
    DecimalMeaning(n / 10);
  }

  lemma {:induction false} DecimalInjective(m: nat, n: nat)
    requires Decimal(m) == Decimal(n)
    ensures m == n
  {
    DecimalParts(m);
    DecimalParts(n);
    if m >= 10 {
      DecimalInjective(m / 10, n / 10);
    }
  }

  lemma SignedMeaning(i: int, j: int)
    ensures NoBar(Signed(i)) && (Signed(i) == Signed(j) ==> i == j)
  {
    var m, n := if i < 0 then -i else i, if j < 0 then -j else j;
    DecimalMeaning(m);
    DecimalMeaning(n);
    if Signed(i) == Signed(j) {
      assert i < 0 ==> Signed(i)[1..] == Decimal(m);
      assert j < 0 ==> Signed(j)[1..] == Decimal(n);
      DecimalInjective(m, n);
    }
  }

  lemma NormalFormHasNoBar(a: Alphabet, query: string)
    requires Sound(a)
    ensures NoBar(Normalize(a, query))
  {
    NormalFormIsWords(a, query);
    WordsAreWords(a, Lower(a, query));
    SpacedHasNoBar(a, Words(a, Lower(a, query)));
  }

  lemma {:induction false} SpacedHasNoBar(a: Alphabet, ws: seq<string>)
    requires Sound(a) && AllWords(a, ws)
    ensures NoBar(Spaced(ws))
  {
    if ws != [] {
      assert IsWordString(a, ws[0]) && ws == [ws[0]] + ws[1..];
      SpacedCons(ws[0], ws[1..]);
      SpacedHasNoBar(a, ws[1..]);
    }
  }

  /** What precedes the first bar, and what follows the last, can be read back. */
  lemma FirstBar(s: string, x: string, t: string, y: string)
    requires NoBar(s) && NoBar(t) && s + [BAR] + x == t + [BAR] + y
    ensures s == t && x == y
  {
    var u := s + [BAR] + x;
    assert u[|s|] == BAR && u[|t|] == BAR;
    assert u[..|s|] == s && u[..|t|] == t && u[|s| + 1..] == x && u[|t| + 1..] == y;
  }

  lemma LastBar(x: string, s: string, y: string, t: string)
    requires NoBar(s) && NoBar(t) && x + [BAR] + s == y + [BAR] + t
    ensures s == t && x == y
  {
    var u := x + [BAR] + s;
    assert u[|x|] == BAR && u[|y|] == BAR;
    assert u[..|x|] == x && u[..|y|] == y && u[|x| + 1..] == s && u[|y| + 1..] == t;
  }

  /** What a cache is asked for: retrieval asks with a limit, the answer cache without. */
  datatype Ask = Chunks(query: string, user: Option<string>, limit: int) | Answer(query: string, user: Option<string>)

  const CHUNK_PREFIX: string := "uchenab:ragcache:"
  const ANSWER_PREFIX: string := "uchenab:answercache:"

  function Prefix(chunks: bool): string { if chunks then CHUNK_PREFIX else ANSWER_PREFIX }

  /** Version and scope, and for retrieval the limit. */
  function Head(ask: Ask, version: nat): string {
    var scoped := "v" + Decimal(version) + [BAR] + Scope(ask.user);
    if ask.Chunks? then scoped + [BAR] + Signed(ask.limit) else scoped
  }

  function Key(a: Alphabet, ask: Ask, version: nat): string {
    Prefix(ask.Chunks?) + (Head(ask, version) + [BAR] + Normalize(a, ask.query))
  }

  /** Callers without an identifier of their own: none, the empty one, and the name all of these go under. */
  predicate IsPublic(user: Option<string>) { user in {None, Some(""), Some("public")} }

  predicate SameCaller(u: Option<string>, v: Option<string>) { u == v || (IsPublic(u) && IsPublic(v)) }

  lemma SameScopeExactlyWhen(u: Option<string>, v: Option<string>)
    ensures Scope(u) == Scope(v) <==> SameCaller(u, v)
  {
  }

  /** The two requests are the same as far as the caches are concerned. */
  ghost predicate SameAsk(a: Alphabet, p: Ask, q: Ask) {
    && p.Chunks? == q.Chunks? && (p.Chunks? ==> p.limit == q.limit)
    && SameCaller(p.user, q.user)
    && Words(a, Lower(a, p.query)) == Words(a, Lower(a, q.query))
  }

  lemma SameHead(p: Ask, m: nat, q: Ask, n: nat)
    requires p.Chunks? == q.Chunks? && Head(p, m) == Head(q, n)
    ensures m == n && Scope(p.user) == Scope(q.user) && (p.Chunks? ==> p.limit == q.limit)
  {
    if p.Chunks? {
      SignedMeaning(p.limit, q.limit);
      SignedMeaning(q.limit, p.limit);
      LastBar("v" + Decimal(m) + [BAR] + Scope(p.user), Signed(p.limit),
              "v" + Decimal(n) + [BAR] + Scope(q.user), Signed(q.limit));
    }
    DecimalMeaning(m);
    DecimalMeaning(n);
    FirstBar("v" + Decimal(m), Scope(p.user), "v" + Decimal(n), Scope(q.user));
    assert ("v" + Decimal(m))[1..] == Decimal(m) && ("v" + Decimal(n))[1..] == Decimal(n);
    DecimalInjective(m, n);
  }

  /**
   Keys decode uniquely, even when a scope contains the separator: two keys are equal exactly for the
   same request and version.
   */
  lemma SameKeyExactlyWhen(a: Alphabet, p: Ask, m: nat, q: Ask, n: nat)
    requires Sound(a)
    ensures Key(a, p, m) == Key(a, q, n) <==> m == n && SameAsk(a, p, q)
  {
    SameNormalFormExactlyWhen(a, p.query, q.query);
    SameScopeExactlyWhen(p.user, q.user);
    if Key(a, p, m) == Key(a, q, n) {
      SamePrefix(p.Chunks?, Head(p, m) + [BAR] + Normalize(a, p.query),
                 q.Chunks?, Head(q, n) + [BAR] + Normalize(a, q.query));
      NormalFormHasNoBar(a, p.query);
      NormalFormHasNoBar(a, q.query);
      LastBar(Head(p, m), Normalize(a, p.query), Head(q, n), Normalize(a, q.query));
      SameHead(p, m, q, n);
    }
  }

  lemma SamePrefix(p: bool, x: string, q: bool, y: string)
    requires Prefix(p) + x == Prefix(q) + y
    ensures p == q && x == y
  {
    var u, v := Prefix(p) + x, Prefix(q) + y;
    assert u[8] == (if p then 'r' else 'a') && v[8] == (if q then 'r' else 'a');
    assert u[|Prefix(p)|..] == x && v[|Prefix(q)|..] == y;
  }

  /**
   In either cache two callers share the entries of a query exactly when their identifiers are equal,
   or each is none, empty or the public scope's name.
   */
  lemma SharedExactlyWhen(
    a: Alphabet, query: string, limit: int, version: nat, u: Option<string>, v: Option<string>)
    requires Sound(a)
    ensures Key(a, Chunks(query, u, limit), version) == Key(a, Chunks(query, v, limit), version) <==>
              u == v || ((u == None || u.value == "" || u.value == "public")
                         && (v == None || v.value == "" || v.value == "public"))
    ensures Key(a, Answer(query, u), version) == Key(a, Answer(query, v), version) <==>
              u == v || ((u == None || u.value == "" || u.value == "public")
                         && (v == None || v.value == "" || v.value == "public"))
  {
    SameKeyExactlyWhen(a, Chunks(query, u, limit), version, Chunks(query, v, limit), version);
    SameKeyExactlyWhen(a, Answer(query, u), version, Answer(query, v), version);
  }

  /**
   Anonymous callers and a user are kept apart exactly when the user's identifier is neither empty
   nor the public scope's name.
   */
  lemma ApartFromAnonymousExactlyWhen(a: Alphabet, query: string, limit: int, version: nat, user: string)
    requires Sound(a)
    ensures Key(a, Chunks(query, None, limit), version) != Key(a, Chunks(query, Some(user), limit), version) <==>
              user != "" && user != "public"
    ensures Key(a, Answer(query, None), version) != Key(a, Answer(query, Some(user)), version) <==>
              user != "" && user != "public"
  {
    SameKeyExactlyWhen(a, Chunks(query, None, limit), version, Chunks(query, Some(user), limit), version);
    SameKeyExactlyWhen(a, Answer(query, None), version, Answer(query, Some(user)), version);
  }
}
