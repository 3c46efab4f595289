/** The few Python `str` built-ins the checklist tool relies on, over `seq<char>`.
    Whitespace follows Python's `str.isspace`; letter case is ASCII only. */
module PyStr {

  datatype Option<T> = None | Some(value: T)

  /** Python's `str.isspace` for one character (the ASCII controls, space, and
      the Unicode space separators and line/paragraph separators). */
  predicate IsSpace(c: char)
  {
    c == ' ' || ('\t' <= c <= '\r') || ('\U{1C}' <= c <= '\U{1F}') ||
    c == '\U{85}' || c == '\U{A0}' || c == '\U{1680}' ||
    ('\U{2000}' <= c <= '\U{200A}') || c == '\U{2028}' || c == '\U{2029}' ||
    c == '\U{202F}' || c == '\U{205F}' || c == '\U{3000}'
  }

  predicate AllSpace(s: string)
  {
    forall i :: 0 <= i < |s| ==> IsSpace(s[i])
  }

  /** No whitespace at either end: what `strip()` leaves. */
  predicate IsStripped(s: string)
  {
    s == [] || (!IsSpace(s[0]) && !IsSpace(s[|s| - 1]))
  }

  /** The index of the first non-whitespace character of `s` at or after `i`. */
  function SkipSpace(s: string, i: nat): (j: nat)
    requires i <= |s|
    ensures i <= j <= |s| && (j == |s| || !IsSpace(s[j]))
    decreases |s| - i
  {
    if i < |s| && IsSpace(s[i]) then SkipSpace(s, i + 1) else i
  }

  lemma {:induction false} SkipSpaceSkipsSpace(s: string, i: nat)
    requires i <= |s|
    ensures forall k :: i <= k < SkipSpace(s, i) ==> IsSpace(s[k])
    decreases |s| - i
  {
    if i < |s| && IsSpace(s[i]) {
      SkipSpaceSkipsSpace(s, i + 1);
    }
  }

  /** `s.lstrip()` */
  function TrimLeft(s: string): (r: string)
    ensures |r| <= |s|
    ensures r == [] || !IsSpace(r[0])
  {
    s[SkipSpace(s, 0)..]
  }

  /** The end of `s[lo..j]` once the whitespace at its end is dropped. */
  function KeepEnd(s: string, lo: nat, j: nat): (k: nat)
    requires lo <= j <= |s|
    ensures lo <= k <= j && (k == lo || !IsSpace(s[k - 1]))
    decreases j
  {
    if j > lo && IsSpace(s[j - 1]) then KeepEnd(s, lo, j - 1) else j
  }

  lemma {:induction false} KeepEndDropsSpace(s: string, lo: nat, j: nat)
    requires lo <= j <= |s|
    ensures forall m :: KeepEnd(s, lo, j) <= m < j ==> IsSpace(s[m])
    decreases j
  {
    if j > lo && IsSpace(s[j - 1]) {
      KeepEndDropsSpace(s, lo, j - 1);
    }
  }

  /** `s.strip()`: no whitespace is left at either end. */
  function Strip(s: string): (r: string)
    ensures |r| <= |s|
    ensures IsStripped(r)
  {
    var i := SkipSpace(s, 0);
    s[i..KeepEnd(s, i, |s|)]
  }

  /** What `strip()` keeps is a contiguous piece of `s` with only whitespace
      on either side of it; `i` is where it starts. */
  lemma {:induction false} StripIsInfix(s: string) returns (i: nat)
    ensures i + |Strip(s)| <= |s| && s[i..i + |Strip(s)|] == Strip(s)
    ensures AllSpace(s[..i]) && AllSpace(s[i + |Strip(s)|..])
  {
    i := SkipSpace(s, 0);
    SkipSpaceSkipsSpace(s, 0);
    KeepEndDropsSpace(s, i, |s|);
  }

  /** What `strip()` keeps occurs in `s`. */
  lemma {:induction false} StripOccurs(s: string) returns (i: nat)
    ensures OccursAt(s, Strip(s), i)
  {
    i := SkipSpace(s, 0);
  }

  /** `strip()` leaves nothing exactly when `s` is all whitespace. */
  lemma {:induction false} StripEmpty(s: string)
    ensures Strip(s) == [] <==> AllSpace(s)
  {
    var i := StripIsInfix(s);
    if Strip(s) == [] {
      assert s == s[..i] + s[i..];
    }
  }

  /** Stripping what follows the first `k` characters of `s.strip()` leaves a
      piece of `s`. */
  lemma {:induction false} StripOfPieceOccurs(s: string, k: nat)
    requires k <= |Strip(s)|
    ensures Contains(s, Strip(Strip(s)[k..]))
  {
    var t := Strip(s);
    var i := StripOccurs(s);
    var j := StripOfSuffixOccurs(t, k);
    OccursWithin(s, t, Strip(t[k..]), i, j);
    ContainsAt(s, Strip(t[k..]), i + j);
  }

  /** Stripping a suffix of `t` leaves a piece of `t`. */
  lemma {:induction false} StripOfSuffixOccurs(t: string, k: nat) returns (j: nat)
    requires k <= |t|
    ensures OccursAt(t, Strip(t[k..]), j)
  {
    var rest := t[k..];
    SuffixOccurs(t, k);
    var j0 := StripOccurs(rest);
    OccursWithin(t, rest, Strip(rest), k, j0);
    j := k + j0;
  }

  /** Stripping a prefix of `t` leaves a piece of `t`. */
  lemma {:induction false} StripOfPrefixOccurs(t: string, k: nat) returns (j: nat)
    requires k <= |t|
    ensures OccursAt(t, Strip(t[..k]), j)
  {
    var head := t[..k];
    assert OccursAt(t, head, 0);
    j := StripOccurs(head);
    OccursWithin(t, head, Strip(head), 0, j);
  }

  lemma {:induction false} SuffixOccurs(s: string, k: nat)
    requires k <= |s|
    ensures OccursAt(s, s[k..], k)
  {
    assert s[k..k + |s[k..]|] == s[k..];
  }

  /** A piece of a piece of `s` is a piece of `s`. */
  lemma {:induction false} OccursWithin(s: string, t: string, w: string, i: nat, j: nat)
    requires OccursAt(s, t, i) && OccursAt(t, w, j)
    ensures OccursAt(s, w, i + j)
  {
    forall m | 0 <= m < |w| ensures s[i + j + m] == w[m] {
      assert w[m] == t[j + m];
      assert t[j + m] == s[i + j + m];
    }
  }

  /** Stripping a string with no whitespace at its ends changes nothing. */
  lemma {:induction false} StripOfStripped(s: string)
    requires IsStripped(s)
    ensures Strip(s) == s
  {
  }

  /** `strip()` is idempotent. */
  lemma {:induction false} StripIdempotent(s: string)
    ensures Strip(Strip(s)) == Strip(s)
  {
    StripOfStripped(Strip(s));
  }

  // ---------------------------------------------------------------- case

  predicate IsAsciiUpper(c: char) { 'A' <= c <= 'Z' }
  predicate IsAsciiLower(c: char) { 'a' <= c <= 'z' }
  predicate IsCased(c: char) { IsAsciiUpper(c) || IsAsciiLower(c) }

  function LowerChar(c: char): (d: char)
    ensures !IsAsciiUpper(d)
    ensures IsAsciiUpper(c) ==> IsAsciiLower(d)
    ensures !IsAsciiUpper(c) ==> d == c
  {
    if IsAsciiUpper(c) then (c as int - 'A' as int + 'a' as int) as char else c
  }

  /** `s.lower()` */
  function Lower(s: string): (r: string)
    ensures |r| == |s|
    ensures forall i :: 0 <= i < |s| ==> r[i] == LowerChar(s[i])
  {
    seq(|s|, i requires 0 <= i < |s| => LowerChar(s[i]))
  }

  lemma {:induction false} LowerIdempotent(s: string)
    ensures Lower(Lower(s)) == Lower(s)
  {
  }

  lemma {:induction false} LowerAppend(a: string, b: string)
    ensures Lower(a + b) == Lower(a) + Lower(b)
  {
  }

  /** `s.isupper()`: at least one cased character and no lower-case one. */
  predicate IsUpper(s: string)
  {
    (exists i :: 0 <= i < |s| && IsAsciiUpper(s[i])) &&
    (forall i :: 0 <= i < |s| ==> !IsAsciiLower(s[i]))
  }

  /** `s.istitle()`, computed as CPython does: scan left to right remembering
      whether the previous character was cased. */
  function TitleScan(s: string, previousCased: bool, seenCased: bool): bool
  {
    if s == [] then seenCased
    else if IsAsciiUpper(s[0]) then !previousCased && TitleScan(s[1..], true, true)
    else if IsAsciiLower(s[0]) then previousCased && TitleScan(s[1..], true, true)
    else TitleScan(s[1..], false, seenCased)
  }

  predicate IsTitle(s: string)
  {
    TitleScan(s, false, false)
  }

  /** The title-case rule stated position by position: there is a cased
      character, an upper-case letter never follows a cased character, and a
      lower-case letter always does. */
  ghost predicate TitleCased(s: string)
  {
    (exists i :: 0 <= i < |s| && IsCased(s[i])) &&
    (forall i :: 0 <= i < |s| && IsAsciiUpper(s[i]) ==> i == 0 || !IsCased(s[i - 1])) &&
    (forall i :: 0 <= i < |s| && IsAsciiLower(s[i]) ==> i > 0 && IsCased(s[i - 1]))
  }

  lemma {:induction false} IsTitleMeansTitleCased(s: string)
    ensures IsTitle(s) <==> TitleCased(s)
  {
    TitleScanCorrect(s, false, false);
    assert SeenOk(s, false) == (exists i :: 0 <= i < |s| && IsCased(s[i]));
  }

  /** Some cased character has been met, before `s` or inside it. */
  ghost predicate SeenOk(s: string, seen: bool)
  {
    seen || exists i :: 0 <= i < |s| && IsCased(s[i])
  }

  /** Whether the character before position `i` of `s` is cased, where
      `previousCased` stands for the character before `s`. */
  ghost predicate CasedBefore(s: string, i: nat, previousCased: bool)
    requires i < |s|
  {
    if i == 0 then previousCased else IsCased(s[i - 1])
  }

  ghost predicate UpperOk(s: string, previousCased: bool)
  {
    forall i :: 0 <= i < |s| && IsAsciiUpper(s[i]) ==> !CasedBefore(s, i, previousCased)
  }

  ghost predicate LowerOk(s: string, previousCased: bool)
  {
    forall i :: 0 <= i < |s| && IsAsciiLower(s[i]) ==> CasedBefore(s, i, previousCased)
  }

  lemma {:induction false} TitleStep(s: string, previousCased: bool, seen: bool)
    requires s != []
    ensures SeenOk(s, seen) == SeenOk(s[1..], seen || IsCased(s[0]))
    ensures UpperOk(s, previousCased) ==
      ((IsAsciiUpper(s[0]) ==> !previousCased) && UpperOk(s[1..], IsCased(s[0])))
    ensures LowerOk(s, previousCased) ==
      ((IsAsciiLower(s[0]) ==> previousCased) && LowerOk(s[1..], IsCased(s[0])))
  {
    var t := s[1..];
    forall i | 1 <= i < |s| ensures s[i] == t[i - 1] && CasedBefore(s, i, previousCased) == CasedBefore(t, i - 1, IsCased(s[0])) {
    }
    if SeenOk(t, seen || IsCased(s[0])) && !seen && !IsCased(s[0]) {
      var j :| 0 <= j < |t| && IsCased(t[j]);
      assert IsCased(s[j + 1]);
    }
    if UpperOk(t, IsCased(s[0])) && (IsAsciiUpper(s[0]) ==> !previousCased) {
      forall i | 0 <= i < |s| && IsAsciiUpper(s[i]) ensures !CasedBefore(s, i, previousCased) {
        if i > 0 { assert IsAsciiUpper(t[i - 1]); }
      }
    }
    if UpperOk(s, previousCased) {
      forall i | 0 <= i < |t| && IsAsciiUpper(t[i]) ensures !CasedBefore(t, i, IsCased(s[0])) {
        assert IsAsciiUpper(s[i + 1]);
      }
    }
    if LowerOk(t, IsCased(s[0])) && (IsAsciiLower(s[0]) ==> previousCased) {
      forall i | 0 <= i < |s| && IsAsciiLower(s[i]) ensures CasedBefore(s, i, previousCased) {
        if i > 0 { assert IsAsciiLower(t[i - 1]); }
      }
    }
    if LowerOk(s, previousCased) {
      forall i | 0 <= i < |t| && IsAsciiLower(t[i]) ensures CasedBefore(t, i, IsCased(s[0])) {
        assert IsAsciiLower(s[i + 1]);
      }
    }
  }

  lemma {:induction false} TitleScanCorrect(s: string, previousCased: bool, seen: bool)
    ensures TitleScan(s, previousCased, seen) <==>
      SeenOk(s, seen) && UpperOk(s, previousCased) && LowerOk(s, previousCased)
  {
    if s != [] {
      TitleStep(s, previousCased, seen);
      TitleScanCorrect(s[1..], IsCased(s[0]), seen || IsCased(s[0]));
    }
  }

  // ------------------------------------------------------- substrings

  predicate OccursAt(s: string, w: string, i: nat)
  {
    i + |w| <= |s| && s[i..i + |w|] == w
  }

  /** The first index at or after `i` at which `w` occurs in `s`. */
  function FindFrom(s: string, w: string, i: nat): (r: Option<nat>)
    requires i <= |s|
    ensures r.Some? ==> i <= r.value && r.value + |w| <= |s|
    decreases |s| - i
  {
    if i + |w| > |s| then None
    else if s[i..i + |w|] == w then Some(i)
    else FindFrom(s, w, i + 1)
  }

  lemma {:induction false} FindFromFirst(s: string, w: string, i: nat)
    requires i <= |s|
    ensures FindFrom(s, w, i).None? <==> forall j :: i <= j <= |s| ==> !OccursAt(s, w, j)
    ensures FindFrom(s, w, i).Some? ==>
      OccursAt(s, w, FindFrom(s, w, i).value) && forall j :: i <= j < FindFrom(s, w, i).value ==> !OccursAt(s, w, j)
    decreases |s| - i
  {
    if i + |w| <= |s| {
      if s[i..i + |w|] == w {
        assert OccursAt(s, w, i);
      } else {
        FindFromFirst(s, w, i + 1);
      }
    }
  }

  /** `s.find(w)`: the first index at which `w` occurs in `s`. */
  function Find(s: string, w: string): (r: Option<nat>)
    ensures r.Some? ==> r.value + |w| <= |s|
  {
    FindFrom(s, w, 0)
  }

  /** `find` gives the first occurrence, and fails only when there is none. */
  lemma {:induction false} FindFirst(s: string, w: string)
    ensures Find(s, w).None? <==> forall i :: 0 <= i <= |s| ==> !OccursAt(s, w, i)
    ensures Find(s, w).Some? ==> OccursAt(s, w, Find(s, w).value)
    ensures Find(s, w).Some? ==> forall j :: 0 <= j < Find(s, w).value ==> !OccursAt(s, w, j)
  {
    FindFromFirst(s, w, 0);
  }

  /** Python's `w in s`. */
  predicate Contains(s: string, w: string)
  {
    Find(s, w).Some?
  }

  lemma {:induction false} ContainsAt(s: string, w: string, i: nat)
    requires OccursAt(s, w, i)
    ensures Contains(s, w)
  {
    FindFirst(s, w);
  }

  predicate StartsWith(s: string, p: string)
  {
    |p| <= |s| && s[..|p|] == p
  }

  predicate EndsWith(s: string, p: string)
  {
    |p| <= |s| && s[|s| - |p|..] == p
  }

  /** `s.split(sep, 1)`: one part when `sep` does not occur, otherwise the
      parts before and after its first occurrence. */
  function SplitOnce(s: string, sep: string): (parts: seq<string>)
    requires sep != []
    ensures |parts| == if Contains(s, sep) then 2 else 1
  {
    match Find(s, sep)
    case None => [s]
    case Some(k) => [s[..k], s[k + |sep|..]]
  }

  /** Putting the separator back between the two parts gives `s`. */
  lemma {:induction false} SplitOnceParts(s: string, sep: string)
    requires sep != []
    ensures var parts := SplitOnce(s, sep);
      && (|parts| == 1 ==> parts[0] == s)
      && (|parts| == 2 ==> parts[0] + sep + parts[1] == s && Find(s, sep) == Some(|parts[0]|))
  {
    if Contains(s, sep) {
      var k := Find(s, sep).value;
      FindFirst(s, sep);
      assert s == s[..k] + s[k..k + |sep|] + s[k + |sep|..];
    }
  }

  /** `s.count(c)` for a one-character needle. */
  function Count(s: string, c: char): (n: nat)
    ensures n <= |s|
    ensures n == 0 <==> c !in s
  {
    if s == [] then 0 else (if s[0] == c then 1 else 0) + Count(s[1..], c)
  }

  lemma {:induction false} CountIgnoresCase(s: string, c: char)
    requires !IsCased(c)
    ensures Count(Lower(s), c) == Count(s, c)
  {
    if s != [] {
      assert Lower(s)[1..] == Lower(s[1..]);
      CountIgnoresCase(s[1..], c);
    }
  }

  /** For a needle without letters, `w in s.lower()` is the same test as `w in s`. */
  lemma {:induction false} ContainsIgnoresCase(s: string, w: string)
    requires forall i :: 0 <= i < |w| ==> !IsCased(w[i])
    ensures Contains(Lower(s), w) == Contains(s, w)
  {
    FindFirst(Lower(s), w);
    FindFirst(s, w);
    forall i | 0 <= i <= |s| ensures OccursAt(Lower(s), w, i) == OccursAt(s, w, i) {
      OccursIgnoresCase(s, w, i);
    }
  }

  lemma {:induction false} OccursIgnoresCase(s: string, w: string, i: nat)
    requires forall k :: 0 <= k < |w| ==> !IsCased(w[k])
    ensures OccursAt(Lower(s), w, i) == OccursAt(s, w, i)
  {
    var l := Lower(s);
    if i + |w| <= |s| {
      forall k | 0 <= k < |w| ensures (l[i + k] == w[k]) == (s[i + k] == w[k]) {
      }
      assert OccursAt(l, w, i) == (forall k :: 0 <= k < |w| ==> l[i + k] == w[k]);
      assert OccursAt(s, w, i) == (forall k :: 0 <= k < |w| ==> s[i + k] == w[k]);
    }
  }

  // -------------------------------------------------- split on a char

  /** `s.split(c)` for a one-character separator. */
  function SplitOn(s: string, c: char): (parts: seq<string>)
    ensures |parts| >= 1
  {
    if s == [] then [[]]
    else
      var rest := SplitOn(s[1..], c);
      if s[0] == c then [[]] + rest
      else [[s[0]] + rest[0]] + rest[1..]
  }

  /** No piece of a split holds the separator. */
  lemma {:induction false} SplitOnSeparatorFree(s: string, c: char)
    ensures forall k :: 0 <= k < |SplitOn(s, c)| ==> c !in SplitOn(s, c)[k]
  {
    if s != [] {
      SplitOnSeparatorFree(s[1..], c);
      var rest := SplitOn(s[1..], c);
      if s[0] != c {
        var parts := SplitOn(s, c);
        forall k | 0 <= k < |parts| ensures c !in parts[k] {
          if k > 0 { assert parts[k] == rest[k]; }
        }
      }
    }
  }

  /** `c.join(parts)` */
  function Join(parts: seq<string>, c: char): (s: string)
    requires |parts| >= 1
  {
    if |parts| == 1 then parts[0] else parts[0] + [c] + Join(parts[1..], c)
  }

  /** Joining the pieces of a split gives back the original text. */
  lemma {:induction false} JoinSplit(s: string, c: char)
    ensures Join(SplitOn(s, c), c) == s
  {
    if s != [] {
      JoinSplit(s[1..], c);
      var rest := SplitOn(s[1..], c);
      if s[0] != c {
        if |rest| > 1 {
          assert ([[s[0]] + rest[0]] + rest[1..])[1..] == rest[1..];
          assert Join(rest, c) == rest[0] + [c] + Join(rest[1..], c);
        }
      } else {
        assert ([[]] + rest)[1..] == rest;
      }
    }
  }

  /** Splitting a join of separator-free pieces gives back the pieces. */
  lemma {:induction false} SplitJoin(parts: seq<string>, c: char)
    requires |parts| >= 1
    requires forall k :: 0 <= k < |parts| ==> c !in parts[k]
    ensures SplitOn(Join(parts, c), c) == parts
    decreases |parts|, |parts[0]|
  {
    if parts[0] == [] {
      if |parts| > 1 {
        SplitJoin(parts[1..], c);
        assert Join(parts, c) == [c] + Join(parts[1..], c);
        assert (Join(parts, c))[1..] == Join(parts[1..], c);
        assert [[]] + parts[1..] == parts;
      }
    } else {
      var tail := [parts[0][1..]] + parts[1..];
      assert tail[1..] == parts[1..];
      SplitJoin(tail, c);
      assert Join(parts, c) == [parts[0][0]] + Join(tail, c) by {
        if |parts| > 1 {
          assert Join(tail, c) == parts[0][1..] + [c] + Join(parts[1..], c);
        }
      }
      assert Join(parts, c)[1..] == Join(tail, c);
      assert parts[0][0] != c;
      assert [parts[0][0]] + parts[0][1..] == parts[0];
      assert [[parts[0][0]] + parts[0][1..]] + parts[1..] == parts;
    }
  }

  /** `s.split()[0]`: the first run of non-whitespace characters, after the
      leading whitespace. */
  function FirstWord(s: string): (w: string)
    requires !AllSpace(s)
  {
    var i := SkipSpace(s, 0);
    s[i..WordEnd(s, i)]
  }

  predicate AllSpaceFree(s: string)
  {
    forall i :: 0 <= i < |s| ==> !IsSpace(s[i])
  }

  /** The end of the run of non-whitespace characters starting at `i`. */
  function WordEnd(s: string, i: nat): (j: nat)
    requires i <= |s|
    ensures i <= j <= |s| && (j == |s| || IsSpace(s[j]))
    decreases |s| - i
  {
    if i < |s| && !IsSpace(s[i]) then WordEnd(s, i + 1) else i
  }

  lemma {:induction false} WordEndSkipsWord(s: string, i: nat)
    requires i <= |s|
    ensures forall k :: i <= k < WordEnd(s, i) ==> !IsSpace(s[k])
    decreases |s| - i
  {
    if i < |s| && !IsSpace(s[i]) {
      WordEndSkipsWord(s, i + 1);
    }
  }

  /** The first word is non-empty, has no whitespace, and is where the text
      after the leading whitespace starts, ending at whitespace or the end. */
  lemma {:induction false} FirstWordFacts(s: string)
    requires !AllSpace(s)
    ensures var w := FirstWord(s); var t := TrimLeft(s);
      && w != [] && AllSpaceFree(w)
      && |w| <= |t| && w == t[..|w|] && (|w| == |t| || IsSpace(t[|w|]))
  {
    var i := SkipSpace(s, 0);
    SkipSpaceSkipsSpace(s, 0);
    WordEndSkipsWord(s, i);
    assert i < |s| by { assert s[..|s|] == s; }
  }
}
