/** generateSlug of the event schema: a chain of string rewrites that turns a title
    into the event's URL identifier. Each `replace` of the chain is one function. */
module Slugify {
  import opened JsString

  predicate IsLowerAlnum(c: char) {
    'a' <= c <= 'z' || '0' <= c <= '9'
  }

  /** The characters /[^a-z0-9\s-]/g does not remove. */
  predicate IsKept(c: char) {
    IsLowerAlnum(c) || IsWhitespace(c) || c == '-'
  }

  predicate IsSlugChar(c: char) {
    IsLowerAlnum(c) || c == '-'
  }

  predicate AllKept(s: string) {
    forall i :: 0 <= i < |s| ==> IsKept(s[i])
  }

  predicate AllSlugChars(s: string) {
    forall i :: 0 <= i < |s| ==> IsSlugChar(s[i])
  }

  predicate NoDoubleHyphen(s: string) {
    forall i, j :: 0 <= i < |s| && 0 <= j < |s| && j == i + 1 ==> s[i] != '-' || s[j] != '-'
  }

  /** The shape every generated slug has: lowercase letters, digits and single
      hyphens, with no hyphen at either end. */
  predicate IsSlug(s: string) {
    AllSlugChars(s) &&
    NoDoubleHyphen(s) &&
    (|s| > 0 ==> s[0] != '-' && s[|s| - 1] != '-')
  }

  /** The letters and digits of s, in order. */
  function LowerAlnums(s: string): string {
    if s == [] then [] else (if IsLowerAlnum(s[0]) then [s[0]] else []) + LowerAlnums(s[1..])
  }

  /** `.replace(/[^a-z0-9\s-]/g, '')` */
  function RemoveSpecial(s: string): (r: string)
    ensures |r| <= |s|
  {
    if s == [] then [] else (if IsKept(s[0]) then [s[0]] else []) + RemoveSpecial(s[1..])
  }

  /** What survives the removal is in the kept set, and a string already in it is unchanged. */
  lemma {:induction false} RemoveSpecialShape(s: string)
    ensures AllKept(RemoveSpecial(s))
    ensures AllKept(s) ==> RemoveSpecial(s) == s
  {
    if s != [] {
      RemoveSpecialShape(s[1..]);
      var r := RemoveSpecial(s);
      var rest := RemoveSpecial(s[1..]);
      assert r == (if IsKept(s[0]) then [s[0]] else []) + rest;
      forall i | 0 <= i < |r| ensures IsKept(r[i]) {
        if IsKept(s[0]) && i > 0 {
          assert r[i] == rest[i - 1];
        }
      }
    }
  }

  /** The filter looks at one character at a time, so it distributes over concatenation:
      text on either side of a removed character is kept as it is, whitespace and '-'
      included. */
  lemma {:induction false} RemoveSpecialConcat(a: string, b: string)
    ensures RemoveSpecial(a + b) == RemoveSpecial(a) + RemoveSpecial(b)
  {
    if a == [] {
      assert a + b == b;
    } else {
      assert (a + b)[0] == a[0] && (a + b)[1..] == a[1..] + b;
      RemoveSpecialConcat(a[1..], b);
      var h := if IsKept(a[0]) then [a[0]] else [];
      assert RemoveSpecial(a + b) == h + (RemoveSpecial(a[1..]) + RemoveSpecial(b));
      assert h + (RemoveSpecial(a[1..]) + RemoveSpecial(b)) == (h + RemoveSpecial(a[1..])) + RemoveSpecial(b);
    }
  }

  /** Text made only of characters outside the kept set is removed entirely. */
  lemma {:induction false} RemoveSpecialDropsAll(s: string)
    requires forall i :: 0 <= i < |s| ==> !IsKept(s[i])
    ensures RemoveSpecial(s) == []
  {
    if s != [] {
      RemoveSpecialDropsAll(s[1..]);
    }
  }

  /** The two run-collapsing rewrites of the chain: runs of \s, and runs of '-'. */
  datatype RunClass = Spaces | Hyphens

  predicate InClass(k: RunClass, c: char) {
    match k
    case Spaces => IsWhitespace(c)
    case Hyphens => c == '-'
  }

  /** Every class character left is a '-'. */
  predicate NoClassLeft(r: string, k: RunClass) {
    forall i :: 0 <= i < |r| ==> r[i] == '-' || !InClass(k, r[i])
  }

  /** `.replace(/\s+/g, '-')` for Spaces and `.replace(/-+/g, '-')` for Hyphens:
      each maximal run of class characters becomes a single '-'. */
  function ReplaceRuns(s: string, k: RunClass): (r: string)
    ensures |r| <= |s|
    ensures |s| > 0 ==> |r| > 0 && r[0] == (if InClass(k, s[0]) then '-' else s[0])
  {
    if s == [] then []
    else if InClass(k, s[0]) && |s| > 1 && InClass(k, s[1]) then ReplaceRuns(s[1..], k)
    else [if InClass(k, s[0]) then '-' else s[0]] + ReplaceRuns(s[1..], k)
  }

  /** No class character other than '-' is left; the rewrite adds no character outside
      the kept set or the slug set; after collapsing '-' runs no two hyphens are
      adjacent; and a string without runs to collapse is unchanged. */
  lemma {:induction false} ReplaceRunsShape(s: string, k: RunClass)
    ensures NoClassLeft(ReplaceRuns(s, k), k)
    ensures AllKept(s) ==> AllKept(ReplaceRuns(s, k))
    ensures AllSlugChars(s) ==> AllSlugChars(ReplaceRuns(s, k))
    ensures k == Hyphens ==> NoDoubleHyphen(ReplaceRuns(s, k))
    ensures (forall i :: 0 <= i < |s| ==> !InClass(k, s[i])) ==> ReplaceRuns(s, k) == s
    ensures k == Hyphens && NoDoubleHyphen(s) ==> ReplaceRuns(s, k) == s
  {
    if s != [] {
      ReplaceRunsShape(s[1..], k);
      var r := ReplaceRuns(s, k);
      var rest := ReplaceRuns(s[1..], k);
      if InClass(k, s[0]) && |s| > 1 && InClass(k, s[1]) {
        assert r == rest;
        assert !(k == Hyphens && NoDoubleHyphen(s));
      } else {
        var h := if InClass(k, s[0]) then '-' else s[0];
        assert r == [h] + rest;
        forall i | 1 <= i < |r| ensures r[i] == rest[i - 1] {}
        if k == Hyphens {
          assert |s| > 1 ==> rest[0] == (if s[1] == '-' then '-' else s[1]);
        }
      }
    }
  }

  /** A non-empty run of class characters. */
  predicate IsRun(run: string, k: RunClass) {
    |run| > 0 && forall i :: 0 <= i < |run| ==> InClass(k, run[i])
  }

  /** A run at the front, ended by a character outside the class, becomes one '-'. */
  lemma {:induction false} ReplaceLeadingRun(run: string, b: string, k: RunClass)
    requires IsRun(run, k)
    requires |b| == 0 || !InClass(k, b[0])
    ensures ReplaceRuns(run + b, k) == "-" + ReplaceRuns(b, k)
    decreases |run|
  {
    var s := run + b;
    assert s[0] == run[0];
    if |run| == 1 {
      assert s[1..] == b;
      assert |s| > 1 ==> s[1] == b[0];
    } else {
      assert s[1] == run[1];
      assert s[1..] == run[1..] + b;
      assert IsRun(run[1..], k) by {
        forall i | 0 <= i < |run| - 1 ensures InClass(k, run[1..][i]) {
          assert run[1..][i] == run[i + 1];
        }
      }
      ReplaceLeadingRun(run[1..], b, k);
    }
  }

  /** Each maximal run becomes exactly one '-': a run between two texts that neither end
      nor start with a class character is replaced by a single hyphen, and the texts on
      either side are rewritten on their own. */
  lemma ReplaceRunsConcat(a: string, run: string, b: string, k: RunClass)
    requires IsRun(run, k)
    requires |a| == 0 || !InClass(k, a[|a| - 1])
    requires |b| == 0 || !InClass(k, b[0])
    ensures ReplaceRuns(a + run + b, k) == ReplaceRuns(a, k) + "-" + ReplaceRuns(b, k)
  {
    ConcatBeforeRun(a, run, b, k);
    assert a + run + b == a + (run + b);
  }

  /** ReplaceRunsConcat with the run and the text after it grouped, by induction on `a`. */
  lemma {:induction false} ConcatBeforeRun(a: string, run: string, b: string, k: RunClass)
    requires IsRun(run, k)
    requires |a| == 0 || !InClass(k, a[|a| - 1])
    requires |b| == 0 || !InClass(k, b[0])
    ensures ReplaceRuns(a + (run + b), k) == ReplaceRuns(a, k) + "-" + ReplaceRuns(b, k)
    decreases |a|
  {
    if a == [] {
      assert a + (run + b) == run + b;
      ReplaceLeadingRun(run, b, k);
    } else if |a| == 1 {
      ReplaceLeadingRun(run, b, k);
      ConcatAfterLast(a[0], run, b, k);
      assert [a[0]] == a;
    } else {
      assert a[1..][|a| - 2] == a[|a| - 1];
      ConcatBeforeRun(a[1..], run, b, k);
      ConcatAfterHead(a, run + b, ReplaceRuns(b, k), k);
    }
  }

  /** The case of ReplaceRunsConcat where `a` is one character outside the class. */
  lemma ConcatAfterLast(c: char, run: string, b: string, k: RunClass)
    requires IsRun(run, k) && !InClass(k, c)
    requires ReplaceRuns(run + b, k) == "-" + ReplaceRuns(b, k)
    ensures ReplaceRuns([c] + (run + b), k) == ReplaceRuns([c], k) + "-" + ReplaceRuns(b, k)
  {
    StepOverHead(c, run + b, k);
    StepOverHead(c, [], k);
    assert [c] + [] == [c];
  }

  /** The inductive step of ReplaceRunsConcat: the head of `a` is rewritten the same
      way in front of `a[1..]` alone as in front of `a[1..] + rest`, since `a` has a
      second character. */
  lemma ConcatAfterHead(a: string, rest: string, tail: string, k: RunClass)
    requires |a| > 1
    requires ReplaceRuns(a[1..] + rest, k) == ReplaceRuns(a[1..], k) + "-" + tail
    ensures ReplaceRuns(a + rest, k) == ReplaceRuns(a, k) + "-" + tail
  {
    var c, a1 := a[0], a[1..];
    HeadBeforeConcat(c, a1, rest, tail, k);
    assert a == [c] + a1;
    assert a + rest == [c] + (a1 + rest);
  }

  /** ConcatAfterHead with the head character and the rest of `a` given apart. */
  lemma HeadBeforeConcat(c: char, a1: string, rest: string, tail: string, k: RunClass)
    requires |a1| > 0
    requires ReplaceRuns(a1 + rest, k) == ReplaceRuns(a1, k) + "-" + tail
    ensures ReplaceRuns([c] + (a1 + rest), k) == ReplaceRuns([c] + a1, k) + "-" + tail
  {
    var u := a1 + rest;
    assert u[0] == a1[0];
    StepOverHead(c, u, k);
    StepOverHead(c, a1, k);
    if !(InClass(k, c) && InClass(k, a1[0])) {
      var h := if InClass(k, c) then '-' else c;
      var x := ReplaceRuns(a1, k);
      assert [h] + (x + "-" + tail) == [h] + x + "-" + tail;
    }
  }

  /** One step of the rewrite: a class character followed by another is dropped, any
      other character is written out, as '-' when it belongs to the class. */
  lemma StepOverHead(c: char, rest: string, k: RunClass)
    ensures ReplaceRuns([c] + rest, k) ==
      if InClass(k, c) && |rest| > 0 && InClass(k, rest[0]) then ReplaceRuns(rest, k)
      else [if InClass(k, c) then '-' else c] + ReplaceRuns(rest, k)
  {
    var s := [c] + rest;
    assert s[0] == c && s[1..] == rest;
    assert |rest| > 0 ==> s[1] == rest[0];
  }

  /** `.replace(/^-|-$/g, '')`: drops one leading and one trailing hyphen. */
  function StripEdgeHyphens(s: string): (r: string)
    ensures |r| <= |s|
  {
    var start := if |s| > 0 && s[0] == '-' then 1 else 0;
    var end := if |s| > start && s[|s| - 1] == '-' then |s| - 1 else |s|;
    s[start..end]
  }

  /** Only the edge hyphens go: the text between them is kept as it is. */
  lemma StripEdgeHyphensInterior(s: string)
    ensures |s| >= 2 && s[0] == '-' && s[|s| - 1] == '-' ==> StripEdgeHyphens(s) == s[1..|s| - 1]
    ensures |s| >= 1 && s[0] == '-' && s[|s| - 1] != '-' ==> StripEdgeHyphens(s) == s[1..]
    ensures |s| >= 1 && s[0] != '-' && s[|s| - 1] == '-' ==> StripEdgeHyphens(s) == s[..|s| - 1]
    ensures s == "-" ==> StripEdgeHyphens(s) == []
    ensures |s| == 0 || (s[0] != '-' && s[|s| - 1] != '-') ==> StripEdgeHyphens(s) == s
  {
  }

  /** Stripping keeps the slug characters and single hyphens, leaves no hyphen at an end
      of a string without doubled hyphens, and changes nothing without edge hyphens. */
  lemma StripEdgeHyphensShape(s: string)
    ensures AllSlugChars(s) ==> AllSlugChars(StripEdgeHyphens(s))
    ensures NoDoubleHyphen(s) ==>
      var r := StripEdgeHyphens(s); NoDoubleHyphen(r) && (|r| > 0 ==> r[0] != '-' && r[|r| - 1] != '-')
    ensures (|s| == 0 || (s[0] != '-' && s[|s| - 1] != '-')) ==> StripEdgeHyphens(s) == s
  {
    var start := if |s| > 0 && s[0] == '-' then 1 else 0;
    var end := if |s| > start && s[|s| - 1] == '-' then |s| - 1 else |s|;
    var r := s[start..end];
    assert forall i :: 0 <= i < |r| ==> r[i] == s[start + i];
  }

  /** generateSlug: lowercase, trim, drop special characters, turn whitespace runs into
      '-', collapse repeated '-', strip a leading and a trailing '-'. toLowerCase is
      only modelled on ASCII, hence the precondition. */
  function GenerateSlug(title: string): (slug: string)
    requires IsAscii(title)
    ensures IsSlug(slug)
  {
    var trimmed := Trim(ToLowerAscii(title));
    SlugStagesShape(trimmed);
    StripEdgeHyphens(ReplaceRuns(ReplaceRuns(RemoveSpecial(trimmed), Spaces), Hyphens))
  }

  /** The stage facts generateSlug's contract rests on. */
  lemma SlugStagesShape(trimmed: string)
    ensures IsSlug(StripEdgeHyphens(ReplaceRuns(ReplaceRuns(RemoveSpecial(trimmed), Spaces), Hyphens)))
  {
    var kept := RemoveSpecial(trimmed);
    var dashed := ReplaceRuns(kept, Spaces);
    var collapsed := ReplaceRuns(dashed, Hyphens);
    RemoveSpecialShape(trimmed);
    ReplaceRunsShape(kept, Spaces);
    assert AllSlugChars(dashed) by {
      forall i | 0 <= i < |dashed| ensures IsSlugChar(dashed[i]) {
        assert IsKept(dashed[i]);
      }
    }
    ReplaceRunsShape(dashed, Hyphens);
    StripEdgeHyphensShape(collapsed);
  }

  /** Each rewrite of the chain leaves a slug-shaped string alone. */
  lemma StagesFixSlug(s: string)
    requires IsSlug(s)
    ensures IsAscii(s)
    ensures ToLowerAscii(s) == s
    ensures Trim(s) == s
    ensures RemoveSpecial(s) == s
    ensures ReplaceRuns(s, Spaces) == s
    ensures ReplaceRuns(s, Hyphens) == s
    ensures StripEdgeHyphens(s) == s
  {
    SlugFixesLowerTrim(s);
    SlugFixesRewrites(s);
  }

  lemma SlugFixesLowerTrim(s: string)
    requires IsSlug(s)
    ensures IsAscii(s) && ToLowerAscii(s) == s && Trim(s) == s
  {
    assert IsAscii(s) by {
      forall i | 0 <= i < |s| ensures s[i] as int < 128 {
        assert IsSlugChar(s[i]);
      }
    }
    assert ToLowerAscii(s) == s;
    assert IsTrimmed(s) by {
      if |s| > 0 {
        WhitespaceIsNotPrintable(s[0]);
        WhitespaceIsNotPrintable(s[|s| - 1]);
      }
    }
    TrimOfTrimmed(s);
  }

  lemma SlugFixesRewrites(s: string)
    requires IsSlug(s)
    ensures RemoveSpecial(s) == s
    ensures ReplaceRuns(s, Spaces) == s
    ensures ReplaceRuns(s, Hyphens) == s
    ensures StripEdgeHyphens(s) == s
  {
    assert AllKept(s) by {
      forall i | 0 <= i < |s| ensures IsKept(s[i]) {
        assert IsSlugChar(s[i]);
      }
    }
    RemoveSpecialShape(s);
    forall i | 0 <= i < |s| ensures !InClass(Spaces, s[i]) {
      assert IsSlugChar(s[i]);
      WhitespaceIsNotPrintable(s[i]);
    }
    ReplaceRunsShape(s, Spaces);
    ReplaceRunsShape(s, Hyphens);
    StripEdgeHyphensShape(s);
  }

  /** A string that already has the slug shape is its own slug. */
  lemma SlugOfSlug(s: string)
    requires IsSlug(s)
    ensures IsAscii(s)
    ensures GenerateSlug(s) == s
  {
    StagesFixSlug(s);
  }

  /** generateSlug is idempotent. */
  lemma SlugIdempotent(title: string)
    requires IsAscii(title)
    ensures GenerateSlug(GenerateSlug(title)) == GenerateSlug(title)
  {
    SlugOfSlug(GenerateSlug(title));
  }

  predicate IsWord(w: string) {
    |w| > 0 && forall i :: 0 <= i < |w| ==> IsLowerAlnum(w[i])
  }

  /** Two words of lowercase letters and digits separated by whitespace become the two
      words joined by a single '-'. */
  lemma SlugOfTwoWords(w1: string, ws: string, w2: string)
    requires IsWord(w1) && IsWord(w2) && IsRun(ws, Spaces) && IsAscii(ws)
    ensures IsAscii(w1 + ws + w2)
    ensures GenerateSlug(w1 + ws + w2) == w1 + "-" + w2
  {
    var title := w1 + ws + w2;
    TwoWordsTitle(w1, ws, w2);
    LowerOfLower(title);
    TrimOfTrimmed(title);
    RemoveSpecialShape(title);
    WordsDashed(w1, ws, w2);
    JoinedWordsAreSlug(w1, w2);
    SlugFixesRewrites(w1 + "-" + w2);
  }

  /** An ASCII character that is not an upper-case letter: toLowerCase leaves it alone. */
  predicate IsPlain(c: char) {
    c as int < 128 && !('A' <= c <= 'Z')
  }

  predicate AllPlain(s: string) {
    forall i :: 0 <= i < |s| ==> IsPlain(s[i])
  }

  /** A character the filter removes even after lowercasing, such as '&' or '!'. */
  predicate IsDropped(c: char) {
    IsPlain(c) && !IsKept(c)
  }

  /** What may stand between two words of a title: ASCII whitespace or a dropped character. */
  predicate IsSeparatorChar(c: char) {
    IsDropped(c) || (IsWhitespace(c) && c as int < 128)
  }

  /** A separator: separator characters, at least one of them whitespace. */
  predicate IsSeparator(sep: string) {
    (forall i :: 0 <= i < |sep| ==> IsSeparatorChar(sep[i])) &&
    exists i :: 0 <= i < |sep| && IsWhitespace(sep[i])
  }

  lemma PlainConcat(a: string, b: string)
    requires AllPlain(a) && AllPlain(b)
    ensures AllPlain(a + b)
  {
    forall i | 0 <= i < |a + b| ensures IsPlain((a + b)[i]) {
      if i >= |a| {
        assert (a + b)[i] == b[i - |a|];
      }
    }
  }

  /** Two words with a separator of whitespace and special characters between them, as
      in "rock & roll" or "Q & A", become the two words joined by a single '-': the filter
      leaves the whitespace of the separator, and that whitespace becomes the hyphen. */
  lemma SlugAcrossSpecials(w1: string, sep: string, w2: string)
    requires IsWord(w1) && IsWord(w2) && IsSeparator(sep)
    ensures IsAscii(w1 + sep + w2)
    ensures GenerateSlug(w1 + sep + w2) == w1 + "-" + w2
  {
    var title := w1 + sep + w2;
    var ws := RemoveSpecial(sep);
    var plain := w1 + ws + w2;
    SeparatorRemoved(sep);
    SpecialsTitle(w1, sep, w2);
    LowerOfLower(title);
    TrimOfTrimmed(title);
    TwoWordsTitle(w1, ws, w2);
    LowerOfLower(plain);
    TrimOfTrimmed(plain);
    SpecialsRemoved(w1, sep, w2);
    RemoveSpecialShape(plain);
    SameFilteredSameSlug(title, plain);
    SlugOfTwoWords(w1, ws, w2);
  }

  /** Titles the lowercasing, trimming and filtering stages bring to the same text get the same slug. */
  lemma SameFilteredSameSlug(a: string, b: string)
    requires IsAscii(a) && IsAscii(b)
    requires RemoveSpecial(Trim(ToLowerAscii(a))) == RemoveSpecial(Trim(ToLowerAscii(b)))
    ensures GenerateSlug(a) == GenerateSlug(b)
  {
  }

  /** The title "rock & roll" becomes the slug "rock-roll". */
  lemma RockAndRoll()
    ensures GenerateSlug("rock & roll") == "rock-roll"
  {
    RockAndRollParts();
    SlugAcrossSpecials("rock", " & ", "roll");
  }

  /** "rock & roll" is the word "rock", the separator " & " and the word "roll". */
  lemma RockAndRollParts()
    ensures IsWord("rock") && IsWord("roll") && IsSeparator(" & ")
    ensures "rock" + " & " + "roll" == "rock & roll" && "rock" + "-" + "roll" == "rock-roll"
  {
    assert IsWhitespace(" & "[0]);
  }

  /** The filter turns a separator into a run of ASCII whitespace. */
  lemma {:induction false} SeparatorRemoved(sep: string)
    requires forall i :: 0 <= i < |sep| ==> IsSeparatorChar(sep[i])
    ensures AllWhitespace(RemoveSpecial(sep)) && IsAscii(RemoveSpecial(sep))
    ensures (exists i :: 0 <= i < |sep| && IsWhitespace(sep[i])) ==> IsRun(RemoveSpecial(sep), Spaces)
  {
    if sep != [] {
      var rest := sep[1..];
      assert forall i :: 0 <= i < |rest| ==> IsSeparatorChar(rest[i]) by {
        forall i | 0 <= i < |rest| ensures IsSeparatorChar(rest[i]) {
          assert rest[i] == sep[i + 1];
        }
      }
      SeparatorRemoved(rest);
      var r := RemoveSpecial(sep);
      var tail := RemoveSpecial(rest);
      var h := if IsKept(sep[0]) then [sep[0]] else [];
      assert r == h + tail;
      assert |h| == 1 ==> IsWhitespace(sep[0]) && sep[0] as int < 128;
      forall i | 0 <= i < |r| ensures IsWhitespace(r[i]) && r[i] as int < 128 {
        if i >= |h| {
          assert r[i] == tail[i - |h|];
        }
      }
      if exists i :: 0 <= i < |sep| && IsWhitespace(sep[i]) {
        var i :| 0 <= i < |sep| && IsWhitespace(sep[i]);
        if i > 0 {
          assert IsWhitespace(rest[i - 1]);
        }
      }
    }
  }

  /** A title of two words and a separator is left alone by toLowerCase and trim. */
  lemma SpecialsTitle(w1: string, sep: string, w2: string)
    requires IsWord(w1) && IsWord(w2) && IsSeparator(sep)
    ensures var title := w1 + sep + w2;
      IsAscii(title) && HasNoUpper(title) && IsTrimmed(title)
  {
    var title := w1 + sep + w2;
    assert AllPlain(w1) && AllPlain(w2);
    assert AllPlain(sep) by {
      forall i | 0 <= i < |sep| ensures IsPlain(sep[i]) {
        WhitespaceIsNotPrintable(sep[i]);
      }
    }
    PlainConcat(w1, sep);
    PlainConcat(w1 + sep, w2);
    assert title[0] == w1[0] && title[|title| - 1] == w2[|w2| - 1];
    WhitespaceIsNotPrintable(w1[0]);
    WhitespaceIsNotPrintable(w2[|w2| - 1]);
  }

  /** The filter turns such a title into the two words around the separator's whitespace. */
  lemma SpecialsRemoved(w1: string, sep: string, w2: string)
    requires IsWord(w1) && IsWord(w2)
    ensures var ws := RemoveSpecial(sep);
      RemoveSpecial(w1 + sep + w2) == w1 + ws + w2
  {
    assert AllKept(w1) && AllKept(w2);
    RemoveSpecialShape(w1);
    RemoveSpecialShape(w2);
    calc {
      RemoveSpecial(w1 + sep + w2);
      { RemoveSpecialConcat(w1 + sep, w2); }
      RemoveSpecial(w1 + sep) + w2;
      { RemoveSpecialConcat(w1, sep); }
      w1 + RemoveSpecial(sep) + w2;
    }
  }

  /** Such a title is left alone by toLowerCase, trim and the special-character filter. */
  lemma TwoWordsTitle(w1: string, ws: string, w2: string)
    requires IsWord(w1) && IsWord(w2) && IsRun(ws, Spaces) && IsAscii(ws)
    ensures var title := w1 + ws + w2;
      IsAscii(title) && HasNoUpper(title) && AllKept(title) && IsTrimmed(title)
  {
    var title := w1 + ws + w2;
    forall i | 0 <= i < |title|
      ensures title[i] as int < 128 && !('A' <= title[i] <= 'Z') && IsKept(title[i])
    {
      if i < |w1| {
        assert title[i] == w1[i];
      } else if i < |w1| + |ws| {
        assert title[i] == ws[i - |w1|];
        WhitespaceIsNotPrintable(ws[i - |w1|]);
      } else {
        assert title[i] == w2[i - |w1| - |ws|];
      }
    }
    assert title[0] == w1[0] && title[|title| - 1] == w2[|w2| - 1];
    WhitespaceIsNotPrintable(w1[0]);
    WhitespaceIsNotPrintable(w2[|w2| - 1]);
  }

  /** The whitespace between the words becomes one '-', and the words stay as they are. */
  lemma WordsDashed(w1: string, ws: string, w2: string)
    requires IsWord(w1) && IsWord(w2) && IsRun(ws, Spaces)
    ensures ReplaceRuns(w1 + ws + w2, Spaces) == w1 + "-" + w2
  {
    forall i | 0 <= i < |w1| ensures !InClass(Spaces, w1[i]) {
      WhitespaceIsNotPrintable(w1[i]);
    }
    forall i | 0 <= i < |w2| ensures !InClass(Spaces, w2[i]) {
      WhitespaceIsNotPrintable(w2[i]);
    }
    ReplaceRunsConcat(w1, ws, w2, Spaces);
    ReplaceRunsShape(w1, Spaces);
    ReplaceRunsShape(w2, Spaces);
  }

  lemma JoinedWordsAreSlug(w1: string, w2: string)
    requires IsWord(w1) && IsWord(w2)
    ensures IsSlug(w1 + "-" + w2)
  {
    var joined := w1 + "-" + w2;
    forall i | 0 <= i < |joined|
      ensures joined[i] == (if i < |w1| then w1[i] else if i == |w1| then '-' else w2[i - |w1| - 1])
    {
    }
  }

  lemma {:induction false} LowerAlnumsConcat(a: string, b: string)
    ensures LowerAlnums(a + b) == LowerAlnums(a) + LowerAlnums(b)
  {
    if a == [] {
      assert a + b == b;
    } else {
      var head := if IsLowerAlnum(a[0]) then [a[0]] else [];
      assert (a + b)[0] == a[0] && (a + b)[1..] == a[1..] + b;
      LowerAlnumsConcat(a[1..], b);
      assert LowerAlnums(a + b) == head + (LowerAlnums(a[1..]) + LowerAlnums(b));
      assert LowerAlnums(a) == head + LowerAlnums(a[1..]);
    }
  }

  lemma {:induction false} LowerAlnumsOfSlice(s: string, i: nat, j: nat)
    requires i <= j <= |s|
    requires forall k :: 0 <= k < i || j <= k < |s| ==> !IsLowerAlnum(s[k])
    ensures LowerAlnums(s[i..j]) == LowerAlnums(s)
  {
    assert s == s[..i] + s[i..j] + s[j..];
    LowerAlnumsConcat(s[..i] + s[i..j], s[j..]);
    LowerAlnumsConcat(s[..i], s[i..j]);
    NoLowerAlnums(s[..i]);
    NoLowerAlnums(s[j..]);
  }

  lemma {:induction false} NoLowerAlnums(s: string)
    requires forall k :: 0 <= k < |s| ==> !IsLowerAlnum(s[k])
    ensures LowerAlnums(s) == []
  {
    if s != [] {
      NoLowerAlnums(s[1..]);
    }
  }

  lemma {:induction false} RemoveSpecialKeepsAlnums(s: string)
    ensures LowerAlnums(RemoveSpecial(s)) == LowerAlnums(s)
  {
    if s != [] {
      RemoveSpecialKeepsAlnums(s[1..]);
      LowerAlnumsConcat(if IsKept(s[0]) then [s[0]] else [], RemoveSpecial(s[1..]));
    }
  }

  lemma {:induction false} ReplaceRunsKeepsAlnums(s: string, k: RunClass)
    ensures LowerAlnums(ReplaceRuns(s, k)) == LowerAlnums(s)
  {
    if s != [] {
      ReplaceRunsKeepsAlnums(s[1..], k);
      var rest := ReplaceRuns(s[1..], k);
      if InClass(k, s[0]) && |s| > 1 && InClass(k, s[1]) {
        assert ReplaceRuns(s, k) == rest;
        WhitespaceIsNotPrintable(s[0]);
        assert LowerAlnums(s) == LowerAlnums(s[1..]);
      } else {
        var h := if InClass(k, s[0]) then '-' else s[0];
        assert ReplaceRuns(s, k) == [h] + rest;
        LowerAlnumsConcat([h], rest);
        assert LowerAlnums([h]) == (if IsLowerAlnum(s[0]) then [s[0]] else []) by {
          assert [h][1..] == [];
        }
      }
    }
  }

  lemma TrimKeepsAlnums(s: string)
    ensures LowerAlnums(Trim(s)) == LowerAlnums(s)
  {
    var t := Trim(s);
    var lead := LeadingWhitespace(s);
    TrimShape(s);
    forall k | 0 <= k < lead || lead + |t| <= k < |s|
      ensures !IsLowerAlnum(s[k])
    {
      if k < lead {
        assert s[..lead][k] == s[k];
      } else {
        assert s[lead + |t|..][k - lead - |t|] == s[k];
      }
      WhitespaceIsNotPrintable(s[k]);
    }
    LowerAlnumsOfSlice(s, lead, lead + |t|);
  }

  lemma StripEdgeHyphensKeepsAlnums(s: string)
    ensures LowerAlnums(StripEdgeHyphens(s)) == LowerAlnums(s)
  {
    var start := if |s| > 0 && s[0] == '-' then 1 else 0;
    var end := if |s| > start && s[|s| - 1] == '-' then |s| - 1 else |s|;
    LowerAlnumsOfSlice(s, start, end);
  }

  /** The slug keeps exactly the letters and digits of the lowercased title, in order:
      everything generateSlug removes or rewrites is punctuation, whitespace or '-'. */
  lemma SlugKeepsLettersAndDigits(title: string)
    requires IsAscii(title)
    ensures LowerAlnums(GenerateSlug(title)) == LowerAlnums(ToLowerAscii(title))
  {
    var lowered := ToLowerAscii(title);
    var trimmed := Trim(lowered);
    var kept := RemoveSpecial(trimmed);
    var dashed := ReplaceRuns(kept, Spaces);
    var collapsed := ReplaceRuns(dashed, Hyphens);
    assert GenerateSlug(title) == StripEdgeHyphens(collapsed);
    TrimKeepsAlnums(lowered);
    RemoveSpecialKeepsAlnums(trimmed);
    ReplaceRunsKeepsAlnums(kept, Spaces);
    ReplaceRunsKeepsAlnums(dashed, Hyphens);
    StripEdgeHyphensKeepsAlnums(collapsed);
  }
}
