/** Optional values. */
module Wrappers {
  datatype Option<+T> = None | Some(value: T) {
    function GetOr(default: T): T { if Some? then value else default }
  }
}

/** `min`, `max` and concatenation. */
module Basics {
  function Max(a: int, b: int): int { if a < b then b else a }

  function Min(a: int, b: int): int { if a < b then a else b }

  lemma Regroup<T>(done: seq<T>, x: T, rest: seq<T>)
    ensures (done + [x]) + rest == done + ([x] + rest)
  {
  }

  lemma Reassociate<T>(a: seq<T>, b: seq<T>, c: seq<T>)
    ensures (a + b) + c == a + (b + c)
  {
  }
}

/** The few `str` operations the chunkers rely on. */
module Text {
  /** White space as Python's `str.strip` and the regular expression `\s` see it. */
  predicate IsSpace(c: char) {
    var n := c as int;
    9 <= n <= 13 || 28 <= n <= 32 || n == 0x85 || n == 0xA0 || n == 0x1680
    || 0x2000 <= n <= 0x200A || n == 0x2028 || n == 0x2029 || n == 0x202F || n == 0x205F || n == 0x3000
  }

  ghost predicate Blank(s: string) {
    forall i :: 0 <= i < |s| ==> IsSpace(s[i])
  }

  /** Nonempty, with no white space at either end. */
  predicate Trimmed(s: string) {
    s != "" && !IsSpace(s[0]) && !IsSpace(s[|s| - 1])
  }

  function StripLeft(s: string): (r: string)
    ensures |r| <= |s|
    ensures r != "" ==> !IsSpace(r[0])
  {
    if s == "" || !IsSpace(s[0]) then s else StripLeft(s[1..])
  }

  function StripRight(s: string): (r: string)
    ensures |r| <= |s|
    ensures r != "" ==> !IsSpace(r[|r| - 1])
  {
    if s == "" || !IsSpace(s[|s| - 1]) then s else StripRight(s[..|s| - 1])
  }

  /** `str.strip()`. */
  function Strip(s: string): string {
    StripLeft(StripRight(s))
  }

  lemma {:induction false} StripLeftCuts(s: string)
    ensures var r := StripLeft(s); r == s[|s| - |r|..] && Blank(s[..|s| - |r|])
  {
    if s != "" && IsSpace(s[0]) {
      StripLeftCuts(s[1..]);
      var k := |s| - |StripLeft(s)|;
      assert s[..k] == [s[0]] + s[1..][..k - 1];
    }
  }

  lemma {:induction false} StripRightCuts(s: string)
    ensures var r := StripRight(s); r == s[..|r|] && Blank(s[|r|..])
  {
    if s != "" && IsSpace(s[|s| - 1]) {
      StripRightCuts(s[..|s| - 1]);
      var k := |StripRight(s)|;
      assert s[k..] == s[..|s| - 1][k..] + [s[|s| - 1]];
    }
  }

  /** What stripping leaves is a stretch of the string without white space at its ends; what it cuts off is blank. */
  lemma StripCuts(s: string) returns (a: nat, b: nat)
    ensures a <= b <= |s| && Strip(s) == s[a..b] && Blank(s[..a]) && Blank(s[b..])
    ensures Strip(s) == "" || Trimmed(Strip(s))
  {
    var t := StripRight(s);
    StripRightCuts(s);
    StripLeftCuts(t);
    a, b := |t| - |Strip(s)|, |t|;
    assert s[..a] == t[..a];
  }

  /** Stripping leaves a string alone exactly when there is nothing to cut. */
  lemma StripFixpoint(s: string)
    ensures Strip(s) == s <==> s == "" || Trimmed(s)
  {
    var a, b := StripCuts(s);
  }

  lemma StripTwice(s: string)
    ensures Strip(Strip(s)) == Strip(s)
  {
    var a, b := StripCuts(s);
    StripFixpoint(Strip(s));
  }

  /** `sep.join(parts)`. */
  function Join(sep: string, parts: seq<string>): string {
    if parts == [] then ""
    else if |parts| == 1 then parts[0]
    else parts[0] + sep + Join(sep, parts[1..])
  }

  lemma {:induction false} JoinSnoc(sep: string, parts: seq<string>, part: string)
    ensures Join(sep, parts + [part]) == if parts == [] then part else Join(sep, parts) + sep + part
  {
    if parts == [] {
      assert [] + [part] == [part];
    } else {
      assert (parts + [part])[1..] == parts[1..] + [part];
      JoinSnoc(sep, parts[1..], part);
      if |parts| > 1 {
        var first, rest := parts[0] + sep, Join(sep, parts[1..]);
        assert first + (rest + sep + part) == first + rest + sep + part;
      }
    }
  }

  predicate OccursAt(hay: string, needle: string, i: int) {
    0 <= i && i + |needle| <= |hay| && hay[i..i + |needle|] == needle
  }

  /** `hay.find(needle, from)`. */
  function Find(hay: string, needle: string, from: nat): (r: int)
    ensures r == -1 || (from <= r && r + |needle| <= |hay|)
    decreases |hay| - from
  {
    if from + |needle| > |hay| then -1
    else if OccursAt(hay, needle, from) then from
    else Find(hay, needle, from + 1)
  }

  /** The first occurrence at or after `from`, or -1 if there is none. */
  lemma {:induction false} FindsFirst(hay: string, needle: string, from: nat)
    ensures var r := Find(hay, needle, from);
            && (r != -1 ==> OccursAt(hay, needle, r))
            && forall i :: from <= i && (r == -1 || i < r) ==> !OccursAt(hay, needle, i)
    decreases |hay| - from
  {
    if from + |needle| <= |hay| && !OccursAt(hay, needle, from) {
      FindsFirst(hay, needle, from + 1);
    }
  }

  /** The characters of `s` that are not white space, in order. */
  function Ink(s: string): string {
    if s == "" then ""
    else (if IsSpace(s[0]) then "" else [s[0]]) + Ink(s[1..])
  }

  lemma {:induction false} InkConcat(s: string, t: string)
    ensures Ink(s + t) == Ink(s) + Ink(t)
  {
    if s == "" {
      assert s + t == t;
    } else {
      assert (s + t)[1..] == s[1..] + t;
      InkConcat(s[1..], t);
    }
  }

  lemma {:induction false} InkBlank(s: string)
    requires Blank(s)
    ensures Ink(s) == ""
  {
    if s != "" {
      InkBlank(s[1..]);
    }
  }

  /** Stripping loses white space only. */
  lemma InkStrip(s: string)
    ensures Ink(Strip(s)) == Ink(s)
  {
    var a, b := StripCuts(s);
    assert s == s[..a] + (s[a..b] + s[b..]);
    InkConcat(s[..a], s[a..b] + s[b..]);
    InkConcat(s[a..b], s[b..]);
    InkBlank(s[..a]);
    InkBlank(s[b..]);
  }
}
