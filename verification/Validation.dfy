/** Name checks of validation.go, and the organisation ids that user.go builds from names.
    Strings are read as byte sequences, one `char` a byte. */
module Validation {

  // ----- regular expressions, as far as the label pattern needs them -----

  datatype Regex =
    | One(chars: set<char>)
    | Then(first: Regex, second: Regex)
    | Many(body: Regex)
    | Maybe(body: Regex)

  /** An anchored match: the whole of `s` is in the language of `r`. */
  predicate Matches(r: Regex, s: string)
    decreases |s|, r
  {
    match r
    case One(chars) => |s| == 1 && s[0] in chars
    case Then(a, b) => exists i :: 0 <= i <= |s| && Matches(a, s[..i]) && Matches(b, s[i..])
    case Many(a) => s == [] || exists i :: 0 < i <= |s| && Matches(a, s[..i]) && Matches(r, s[i..])
    case Maybe(a) => s == [] || Matches(a, s)
  }

  const ALNUM: set<char> := set c: char | 'a' <= c <= 'z' || '0' <= c <= '9'
  const ALNUM_DASH: set<char> := {'-'} + ALNUM

  // [a-z0-9]([-a-z0-9]*[a-z0-9])?
  const DNS1123_LABEL: Regex := Then(One(ALNUM), Maybe(Then(Many(One(ALNUM_DASH)), One(ALNUM))))
  const DNS1123_LABEL_MAX_LENGTH := 63

  predicate IsDNS1123Label(value: string) {
    |value| <= DNS1123_LABEL_MAX_LENGTH && Matches(DNS1123_LABEL, value)
  }

  predicate OccursAt(s: string, part: string, i: int) {
    0 <= i <= |s| - |part| && s[i..i + |part|] == part
  }

  predicate Contains(s: string, part: string) {
    exists i :: 0 <= i <= |s| && OccursAt(s, part, i)
  }

  predicate MinimalNameRequirements(name: string) {
    && name != "." && name != ".."
    && !Contains(name, "/") && !Contains(name, "%")
  }

  predicate ValidateUserName(name: string) {
    && MinimalNameRequirements(name)
    && |name| >= 2
    && IsDNS1123Label(name)
  }

  // ----- the same, character by character -----

  predicate LetterOrDigit(c: char) {
    'a' <= c <= 'z' || '0' <= c <= '9'
  }

  /** Section 2.1 of RFC 1123, lower case only: letters, digits and inner dashes. */
  predicate LabelForm(s: string) {
    && |s| > 0
    && (forall i :: 0 <= i < |s| ==> LetterOrDigit(s[i]) || s[i] == '-')
    && LetterOrDigit(s[0])
    && LetterOrDigit(s[|s| - 1])
  }

  lemma {:induction false} ManyMeaning(cs: set<char>, s: string)
    ensures Matches(Many(One(cs)), s) <==> forall i :: 0 <= i < |s| ==> s[i] in cs
    decreases |s|
  {
    if s != [] {
      ManyMeaning(cs, s[1..]);
      if Matches(Many(One(cs)), s) {
        var i :| 0 < i <= |s| && Matches(One(cs), s[..i]) && Matches(Many(One(cs)), s[i..]);
        assert i == 1 && s[0] == s[..1][0];
        forall k | 0 <= k < |s| ensures s[k] in cs {
          if k > 0 { assert s[k] == s[1..][k - 1]; }
        }
      }
      if forall i :: 0 <= i < |s| ==> s[i] in cs {
        assert Matches(One(cs), s[..1]);
        assert Matches(Many(One(cs)), s[1..]);
      }
    }
  }

  lemma {:induction false} TailMeaning(s: string)
    ensures Matches(Then(Many(One(ALNUM_DASH)), One(ALNUM)), s)
       <==> |s| > 0 && (forall i :: 0 <= i < |s| ==> s[i] in ALNUM_DASH) && s[|s| - 1] in ALNUM
  {
    var many := Many(One(ALNUM_DASH));
    if Matches(Then(many, One(ALNUM)), s) {
      var i :| 0 <= i <= |s| && Matches(many, s[..i]) && Matches(One(ALNUM), s[i..]);
      ManyMeaning(ALNUM_DASH, s[..i]);
      assert i == |s| - 1 && s[i..][0] == s[i];
      assert forall k :: 0 <= k < i ==> s[k] == s[..i][k];
    }
    if |s| > 0 && (forall i :: 0 <= i < |s| ==> s[i] in ALNUM_DASH) && s[|s| - 1] in ALNUM {
      var i := |s| - 1;
      ManyMeaning(ALNUM_DASH, s[..i]);
      assert Matches(many, s[..i]) && Matches(One(ALNUM), s[i..]);
    }
  }

  lemma {:induction false} LabelMeaning(s: string)
    ensures Matches(DNS1123_LABEL, s) <==> LabelForm(s)
  {
    var tail := Then(Many(One(ALNUM_DASH)), One(ALNUM));
    if Matches(DNS1123_LABEL, s) {
      var i :| 0 <= i <= |s| && Matches(One(ALNUM), s[..i]) && Matches(Maybe(tail), s[i..]);
      assert i == 1 && s[..1][0] == s[0];
      TailMeaning(s[1..]);
      forall k | 0 <= k < |s| ensures s[k] in ALNUM_DASH {
        if k > 0 { assert s[k] == s[1..][k - 1]; }
      }
      if |s| > 1 { assert s[|s| - 1] == s[1..][|s| - 2]; }
    }
    if LabelForm(s) {
      TailMeaning(s[1..]);
      assert Matches(One(ALNUM), s[..1]);
      assert s[1..] == [] || Matches(tail, s[1..]);
      assert Matches(Maybe(tail), s[1..]);
    }
  }

  /** What ValidateUserName accepts, with no reference to the pattern or the forbidden contents. */
  lemma {:induction false} UserNameMeaning(name: string)
    ensures ValidateUserName(name) <==> 2 <= |name| <= 63 && LabelForm(name)
  {
    LabelMeaning(name);
    if LabelForm(name) {
      LabelMeetsMinimal(name);
    }
  }

  /** The forbidden-content checks never reject a name that the label check would take. */
  lemma {:induction false} LabelMeetsMinimal(name: string)
    requires LabelForm(name)
    ensures MinimalNameRequirements(name)
  {
    ContainsOne(name, '/');
    ContainsOne(name, '%');
  }

  /** What those checks reject by themselves. */
  lemma {:induction false} MinimalMeaning(name: string)
    ensures MinimalNameRequirements(name) <==> name != "." && name != ".." && '/' !in name && '%' !in name
  {
    ContainsOne(name, '/');
    ContainsOne(name, '%');
  }

  lemma {:induction false} ContainsOne(s: string, c: char)
    ensures Contains(s, [c]) <==> c in s
  {
    if Contains(s, [c]) {
      var i :| 0 <= i <= |s| && OccursAt(s, [c], i);
      assert s[i] == s[i..i + 1][0];
    }
    if c in s {
      var i :| 0 <= i < |s| && s[i] == c;
      assert OccursAt(s, [c], i);
    }
  }

  // ----- organisation ids -----

  const ORG_SUFFIX_LENGTH := 8

  /** A result of generatedOrgName(8): eight lower-case letters or digits. */
  predicate GeneratedSuffix(suffix: string) {
    |suffix| == ORG_SUFFIX_LENGTH && forall i :: 0 <= i < |suffix| ==> LetterOrDigit(suffix[i])
  }

  function OrgID(owner: string, suffix: string): string {
    owner + "-org-" + suffix
  }

  /** An id byte for byte. */
  lemma {:induction false} OrgIDParts(owner: string, suffix: string)
    ensures var id := OrgID(owner, suffix);
      && |id| == |owner| + 5 + |suffix| && id[..|owner|] == owner
      && id[|owner|..|owner| + 5] == "-org-" && id[|owner| + 5..] == suffix
  {
    var id := OrgID(owner, suffix);
    assert id == owner + ("-org-" + suffix);
    assert id[|owner|..|owner| + 5] == "-org-";
  }

  /** An id determines its owner and its suffix, whatever dashes the owner's name holds. */
  lemma {:induction false} OrgIDInjective(o1: string, s1: string, o2: string, s2: string)
    requires GeneratedSuffix(s1) && GeneratedSuffix(s2)
    requires OrgID(o1, s1) == OrgID(o2, s2)
    ensures o1 == o2 && s1 == s2
  {
    var a, b := OrgID(o1, s1), OrgID(o2, s2);
    assert |o1| == |o2|;
    assert a[..|o1|] == o1 && b[..|o2|] == o2;
    assert a[|o1| + 5..] == s1 && b[|o2| + 5..] == s2;
  }

  /** For a valid owner the id is itself a label exactly when the owner's name is short enough. */
  lemma {:induction false} OrgIDIsLabelIff(owner: string, suffix: string)
    requires ValidateUserName(owner) && GeneratedSuffix(suffix)
    ensures IsDNS1123Label(OrgID(owner, suffix)) <==> |owner| <= 50
  {
    UserNameMeaning(owner);
    var id := OrgID(owner, suffix);
    LabelMeaning(id);
    var mid := "-org-";
    assert |id| == |owner| + 13;
    assert forall i :: 0 <= i < 5 ==> mid[i] in ALNUM_DASH;
    forall i | 0 <= i < |id| ensures id[i] in ALNUM_DASH {
      if i < |owner| {
        assert id[i] == owner[i];
      } else if i < |owner| + 5 {
        assert id[i] == mid[i - |owner|];
      } else {
        assert id[i] == suffix[i - |owner| - 5];
      }
    }
    assert id[0] == owner[0];
    assert id[|id| - 1] == suffix[7];
  }
}
