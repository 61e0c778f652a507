/** The email validator of the booking schema, written as a predicate: one or more
    local-part characters, an '@', and one or more domain labels separated by dots,
    each label 1 to 63 letters, digits or hyphens that starts and ends with a letter
    or digit. */
module EmailAddress {

  predicate IsAsciiAlnum(c: char) {
    'a' <= c <= 'z' || 'A' <= c <= 'Z' || '0' <= c <= '9'
  }

  /** The characters the local part may use. */
  predicate IsLocalChar(c: char) {
    IsAsciiAlnum(c) || c in ".!#$%&'*+/=?^_`{|}~-"
  }

  /** The characters a domain label may use. */
  predicate IsLabelChar(c: char) {
    IsAsciiAlnum(c) || c == '-'
  }

  /** One or more local-part characters. */
  predicate IsLocalPart(l: string) {
    |l| > 0 && forall i :: 0 <= i < |l| ==> IsLocalChar(l[i])
  }

  /** 1 to 63 letters, digits and hyphens, starting and ending with a letter or digit. */
  predicate IsLabel(s: string) {
    1 <= |s| <= 63 && IsAsciiAlnum(s[0]) && IsAsciiAlnum(s[|s| - 1]) &&
    forall i :: 0 <= i < |s| ==> IsLabelChar(s[i])
  }

  /** The index of the first c in s, or |s| when there is none. */
  function IndexOf(s: string, c: char): (k: nat)
    ensures k <= |s|
    ensures k < |s| ==> s[k] == c
    ensures forall i :: 0 <= i < k ==> s[i] != c
  {
    if s == [] then 0 else if s[0] == c then 0 else 1 + IndexOf(s[1..], c)
  }

  /** LABEL(\.LABEL)*: the text up to the first '.' is a label, and what follows the
      '.' is again a domain. */
  predicate IsDomain(d: string)
    decreases |d|
  {
    var k := IndexOf(d, '.');
    IsLabel(d[..k]) && (k < |d| ==> IsDomain(d[k + 1..]))
  }

  /** The part before the first '@'. */
  function LocalPart(s: string): string {
    s[..IndexOf(s, '@')]
  }

  /** The part after the first '@', or "" when there is none. */
  function DomainPart(s: string): string {
    var k := IndexOf(s, '@');
    if k < |s| then s[k + 1..] else []
  }

  /** emailRegex.test(s). No local-part or label character is '@', so the separator
      is the first '@' of s. */
  predicate IsValidEmail(s: string) {
    IndexOf(s, '@') < |s| && IsLocalPart(LocalPart(s)) && IsDomain(DomainPart(s))
  }

  /** The labels of a domain: the pieces of d between the dots. */
  function Labels(d: string): (ls: seq<string>)
    ensures |ls| > 0
    decreases |d|
  {
    var k := IndexOf(d, '.');
    if k == |d| then [d] else [d[..k]] + Labels(d[k + 1..])
  }

  /** The labels joined by dots. */
  function JoinLabels(ls: seq<string>): string
    requires |ls| > 0
  {
    if |ls| == 1 then ls[0] else ls[0] + "." + JoinLabels(ls[1..])
  }

  predicate AllLabels(ls: seq<string>) {
    forall i :: 0 <= i < |ls| ==> IsLabel(ls[i])
  }

  /** Joining the pieces between the dots gives the domain back. */
  lemma {:induction false} JoinOfLabels(d: string)
    ensures JoinLabels(Labels(d)) == d
    decreases |d|
  {
    var k := IndexOf(d, '.');
    if k < |d| {
      var head, tail := d[..k], d[k + 1..];
      var ls := Labels(d);
      assert ls == [head] + Labels(tail);
      assert ls[0] == head && ls[1..] == Labels(tail);
      JoinOfLabels(tail);
      calc {
        JoinLabels(ls);
        head + "." + JoinLabels(Labels(tail));
        head + "." + tail;
        { assert d == d[..k] + "." + d[k + 1..]; }
        d;
      }
    }
  }

  /** A domain is valid exactly when every piece between its dots is a label. */
  lemma {:induction false} DomainIsLabels(d: string)
    ensures IsDomain(d) <==> AllLabels(Labels(d))
    decreases |d|
  {
    var k := IndexOf(d, '.');
    if k == |d| {
      assert d[..k] == d && Labels(d) == [d];
      assert AllLabels([d]) <==> IsLabel([d][0]);
    } else {
      DomainIsLabels(d[k + 1..]);
      var rest := Labels(d[k + 1..]);
      var ls := Labels(d);
      assert ls == [d[..k]] + rest;
      if AllLabels(ls) {
        assert IsLabel(ls[0]);
        forall i | 0 <= i < |rest| ensures IsLabel(rest[i]) {
          assert rest[i] == ls[i + 1];
        }
      }
      if IsDomain(d) {
        forall i | 0 <= i < |ls| ensures IsLabel(ls[i]) {
          if i > 0 {
            assert ls[i] == rest[i - 1];
          }
        }
      }
    }
  }

  /** Splitting dot-joined labels at the dots returns the labels: a label has no '.'. */
  lemma {:induction false} LabelsOfJoin(ls: seq<string>)
    requires |ls| > 0 && AllLabels(ls)
    ensures Labels(JoinLabels(ls)) == ls
    decreases |ls|
  {
    var l := ls[0];
    LabelHasNoDot(l);
    if |ls| == 1 {
      NoneBefore(l, '.', |l|);
    } else {
      var rest := JoinLabels(ls[1..]);
      assert JoinLabels(ls) == l + "." + rest;
      FirstAfter(l, '.', rest);
      assert AllLabels(ls[1..]) by {
        forall i | 0 <= i < |ls| - 1 ensures IsLabel(ls[1..][i]) {
          assert ls[1..][i] == ls[i + 1];
        }
      }
      LabelsOfJoin(ls[1..]);
      assert ls == [l] + ls[1..];
    }
  }

  lemma LabelHasNoDot(l: string)
    requires IsLabel(l)
    ensures forall i :: 0 <= i < |l| ==> l[i] != '.'
  {
    forall i | 0 <= i < |l| ensures l[i] != '.' {
      assert IsLabelChar(l[i]);
    }
  }

  /** In a + [c] + b where a has no c, the first c is the one after a. */
  lemma FirstAfter(a: string, c: char, b: string)
    requires forall i :: 0 <= i < |a| ==> a[i] != c
    ensures var s := a + [c] + b;
      IndexOf(s, c) == |a| && s[..|a|] == a && s[|a| + 1..] == b
  {
    var s := a + [c] + b;
    assert s[|a|] == c;
    forall i | 0 <= i < |a| ensures s[i] != c {
      assert s[i] == a[i];
    }
    NoneBefore(s, c, |a|);
    assert s[..|a|] == a && s[|a| + 1..] == b;
  }

  /** When s[..k] has no c and s[k] is c (or k is |s|), the first c is at k. */
  lemma {:induction false} NoneBefore(s: string, c: char, k: nat)
    requires k <= |s| && (k < |s| ==> s[k] == c)
    requires forall i :: 0 <= i < k ==> s[i] != c
    ensures IndexOf(s, c) == k
  {
    if s != [] && s[0] != c {
      NoneBefore(s[1..], c, k - 1);
    }
  }

  /** Every valid address is a local part, one '@' and a dot-joined list of labels. */
  lemma ValidEmailShape(s: string)
    requires IsValidEmail(s)
    ensures IsLocalPart(LocalPart(s)) && AllLabels(Labels(DomainPart(s)))
    ensures s == LocalPart(s) + "@" + JoinLabels(Labels(DomainPart(s)))
  {
    var k := IndexOf(s, '@');
    DomainIsLabels(DomainPart(s));
    JoinOfLabels(DomainPart(s));
    assert s == s[..k] + "@" + s[k + 1..];
  }

  /** Every local part followed by '@' and dot-joined labels is valid, and splits back
      into the same local part and labels. */
  lemma EmailFromParts(local: string, ls: seq<string>)
    requires IsLocalPart(local) && |ls| > 0 && AllLabels(ls)
    ensures var s := local + "@" + JoinLabels(ls);
      IsValidEmail(s) && LocalPart(s) == local && Labels(DomainPart(s)) == ls
  {
    var d := JoinLabels(ls);
    var s := local + "@" + d;
    SplitAtFirstAt(local, d);
    LabelsOfJoin(ls);
    assert IsDomain(d) by {
      DomainIsLabels(d);
    }
    assert IndexOf(s, '@') < |s| && IsLocalPart(LocalPart(s)) && IsDomain(DomainPart(s));
  }

  /** A local part followed by '@' splits at that '@'. */
  lemma SplitAtFirstAt(local: string, d: string)
    requires IsLocalPart(local)
    ensures var s := local + "@" + d;
      IndexOf(s, '@') == |local| && LocalPart(s) == local && DomainPart(s) == d
  {
    forall i | 0 <= i < |local| ensures local[i] != '@' {
      assert IsLocalChar(local[i]);
    }
    FirstAfter(local, '@', d);
  }

  /** The number of occurrences of c in s. */
  function Count(s: string, c: char): nat {
    if s == [] then 0 else (if s[0] == c then 1 else 0) + Count(s[1..], c)
  }

  lemma {:induction false} CountConcat(a: string, b: string, c: char)
    ensures Count(a + b, c) == Count(a, c) + Count(b, c)
  {
    if a != [] {
      assert (a + b)[0] == a[0] && (a + b)[1..] == a[1..] + b;
      CountConcat(a[1..], b, c);
      assert Count(a + b, c) == (if a[0] == c then 1 else 0) + Count(a[1..] + b, c);
    } else {
      assert a + b == b;
    }
  }

  lemma {:induction false} CountAbsent(s: string, c: char)
    requires forall i :: 0 <= i < |s| ==> s[i] != c
    ensures Count(s, c) == 0
  {
    if s != [] {
      CountAbsent(s[1..], c);
    }
  }

  /** A valid address holds exactly one '@'. */
  lemma ExactlyOneAt(s: string)
    requires IsValidEmail(s)
    ensures Count(s, '@') == 1
  {
    var k := IndexOf(s, '@');
    var d := DomainPart(s);
    forall i | 0 <= i < |d| ensures d[i] != '@' {
      DomainCharacter(d, i);
    }
    assert s == s[..k] + ([s[k]] + d);
    CountConcat(s[..k], [s[k]] + d, '@');
    CountConcat([s[k]], d, '@');
    CountAbsent(s[..k], '@');
    CountAbsent(d, '@');
  }

  /** Every character of a valid domain is a label character or a '.'. */
  lemma {:induction false} DomainCharacter(d: string, i: nat)
    requires IsDomain(d) && i < |d|
    ensures IsLabelChar(d[i]) || d[i] == '.'
    decreases |d|
  {
    var k := IndexOf(d, '.');
    if i < k {
      assert d[i] == d[..k][i];
    } else if i > k {
      DomainCharacter(d[k + 1..], i - k - 1);
    }
  }
}
