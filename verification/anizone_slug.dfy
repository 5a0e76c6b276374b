/**
 * The AniZone page slug of an anime title (`titleToAniZoneSlug`): lower
 * case, characters other than word characters, white space and `-`
 * removed, white-space runs replaced by `-`, hyphen runs squashed, then
 * trimmed.
 */
module AniZoneSlug {
  import opened Strings

  /** `\w`: ASCII letters, digits and `_`. */
  predicate WordChar(c: char) {
    'a' <= c <= 'z' || 'A' <= c <= 'Z' || '0' <= c <= '9' || c == '_'
  }

  /** The characters a slug is made of. */
  predicate SlugChar(c: char) {
    'a' <= c <= 'z' || '0' <= c <= '9' || c == '_' || c == '-'
  }

  predicate AllSlugChars(s: string) {
    forall k :: 0 <= k < |s| ==> SlugChar(s[k])
  }

  /** No two hyphens in a row. */
  predicate NoDoubleHyphen(s: string) {
    forall k :: 0 <= k < |s| - 1 ==> !(s[k] == '-' && s[k + 1] == '-')
  }

  predicate NoSpace(s: string) {
    forall k :: 0 <= k < |s| ==> !IsSpace(s[k])
  }

  // ---------------------------------------------------------------- the five steps

  /**
   * `toLowerCase()`. Capital I with dot above lower-cases to `i` followed by
   * a combining dot; every other character follows `LowerChar`.
   */
  function SlugLower(s: string): (r: string)
    ensures forall k :: 0 <= k < |r| ==> !('A' <= r[k] <= 'Z')
  {
    if s == [] then []
    else (if s[0] == '\U{0130}' then "i\U{0307}" else [LowerChar(s[0])]) + SlugLower(s[1..])
  }

  /** `.replace(/[^\w\s-]/g, '')` */
  function RemoveNonWord(s: string): (r: string)
    ensures |r| <= |s|
    ensures forall k :: 0 <= k < |r| ==> WordChar(r[k]) || IsSpace(r[k]) || r[k] == '-'
  {
    if s == [] then []
    else if WordChar(s[0]) || IsSpace(s[0]) || s[0] == '-' then [s[0]] + RemoveNonWord(s[1..])
    else RemoveNonWord(s[1..])
  }

  /** The length of the run of white space at the start of `s`. */
  function SpaceRun(s: string): (n: nat)
    ensures n <= |s| && forall k :: 0 <= k < n ==> IsSpace(s[k])
    ensures n < |s| ==> !IsSpace(s[n])
  {
    if s != [] && IsSpace(s[0]) then 1 + SpaceRun(s[1..]) else 0
  }

  /** `.replace(/\s+/g, '-')`: each maximal white-space run becomes one `-`. */
  function DashSpaces(s: string): string
    decreases |s|
  {
    if s == [] then []
    else if IsSpace(s[0]) then "-" + DashSpaces(s[SpaceRun(s)..])
    else [s[0]] + DashSpaces(s[1..])
  }

  /** The length of the run of hyphens at the start of `s`. */
  function HyphenRun(s: string): (n: nat)
    ensures n <= |s| && forall k :: 0 <= k < n ==> s[k] == '-'
    ensures n < |s| ==> s[n] != '-'
  {
    if s != [] && s[0] == '-' then 1 + HyphenRun(s[1..]) else 0
  }

  /** `.replace(/-+/g, '-')`: each maximal hyphen run becomes one `-`. */
  function SquashHyphens(s: string): string
    decreases |s|
  {
    if s == [] then []
    else if s[0] == '-' then "-" + SquashHyphens(s[HyphenRun(s)..])
    else [s[0]] + SquashHyphens(s[1..])
  }

  /** `titleToAniZoneSlug(title)` */
  function Slug(title: string): string {
    Trim(SquashHyphens(DashSpaces(RemoveNonWord(SlugLower(title)))))
  }

  // ---------------------------------------------------------------- what each step keeps

  /** Replacing white-space runs leaves no white space and adds only hyphens. */
  lemma {:induction false} DashSpacesChars(s: string)
    ensures forall k :: 0 <= k < |DashSpaces(s)| ==>
              !IsSpace(DashSpaces(s)[k]) && (DashSpaces(s)[k] == '-' || DashSpaces(s)[k] in s)
    decreases |s|
  {
    if s != [] {
      var rest := if IsSpace(s[0]) then s[SpaceRun(s)..] else s[1..];
      DashSpacesChars(rest);
      assert forall c :: c in rest ==> c in s;
      assert !IsSpace('-');
    }
  }

  /** A string without white space is left as it is. */
  lemma {:induction false} DashSpacesOfNoSpace(s: string)
    requires NoSpace(s)
    ensures DashSpaces(s) == s
  {
    if s != [] {
      assert NoSpace(s[1..]);
      DashSpacesOfNoSpace(s[1..]);
    }
  }

  /** Squashing adds no character and leaves no two hyphens in a row. */
  lemma {:induction false} SquashHyphensFacts(s: string)
    ensures forall k :: 0 <= k < |SquashHyphens(s)| ==> SquashHyphens(s)[k] in s
    ensures NoDoubleHyphen(SquashHyphens(s))
    ensures s != [] ==> SquashHyphens(s) != [] && SquashHyphens(s)[0] == s[0]
    decreases |s|
  {
    if s != [] {
      var rest := if s[0] == '-' then s[HyphenRun(s)..] else s[1..];
      SquashHyphensFacts(rest);
      assert forall c :: c in rest ==> c in s;
      var r := SquashHyphens(s);
      assert r == [s[0]] + SquashHyphens(rest);
      if s[0] == '-' && SquashHyphens(rest) != [] {
        assert rest[0] != '-';
      }
    }
  }

  /** A string without two hyphens in a row is left as it is. */
  lemma {:induction false} SquashHyphensOfSingle(s: string)
    requires NoDoubleHyphen(s)
    ensures SquashHyphens(s) == s
  {
    if s != [] {
      assert NoDoubleHyphen(s[1..]);
      SquashHyphensOfSingle(s[1..]);
      if s[0] == '-' {
        assert HyphenRun(s) == 1;
      }
    }
  }

  lemma {:induction false} SlugLowerOfSlugChars(s: string)
    requires AllSlugChars(s)
    ensures SlugLower(s) == s
  {
    if s != [] {
      assert AllSlugChars(s[1..]);
      SlugLowerOfSlugChars(s[1..]);
    }
  }

  lemma {:induction false} RemoveNonWordOfSlugChars(s: string)
    requires AllSlugChars(s)
    ensures RemoveNonWord(s) == s
  {
    if s != [] {
      assert AllSlugChars(s[1..]);
      RemoveNonWordOfSlugChars(s[1..]);
    }
  }

  // ---------------------------------------------------------------- properties of the slug

  /**
   * A slug holds only lower-case ASCII letters, digits, `_` and `-`, never
   * two hyphens in a row, and no white space.
   */
  lemma SlugShape(title: string)
    ensures AllSlugChars(Slug(title))
    ensures NoDoubleHyphen(Slug(title))
    ensures NoSpace(Slug(title))
  {
    var removed := RemoveNonWord(SlugLower(title));
    var dashed := DashSpaces(removed);
    var squashed := SquashHyphens(dashed);
    DashSpacesChars(removed);
    SquashHyphensFacts(dashed);
    forall k | 0 <= k < |squashed| ensures SlugChar(squashed[k]) && !IsSpace(squashed[k]) {
      var c := squashed[k];
      assert c in dashed;
      var j :| 0 <= j < |dashed| && dashed[j] == c;
      if c != '-' {
        var i :| 0 <= i < |removed| && removed[i] == c;
        RemoveNonWordSubset(SlugLower(title), i);
      }
    }
    TrimOfNoSpace(squashed);
  }

  lemma {:induction false} RemoveNonWordSubset(s: string, i: nat)
    requires i < |RemoveNonWord(s)|
    ensures RemoveNonWord(s)[i] in s
  {
    if s != [] {
      if WordChar(s[0]) || IsSpace(s[0]) || s[0] == '-' {
        if i > 0 {
          RemoveNonWordSubset(s[1..], i - 1);
        }
      } else {
        RemoveNonWordSubset(s[1..], i);
      }
    }
  }

  /** Trimming a string without white space leaves it as it is. */
  lemma TrimOfNoSpace(s: string)
    requires NoSpace(s)
    ensures Trim(s) == s
  {
    TrimOfTrimmed(s);
  }

  /** The strings a slug can be are exactly the fixed points of the slug function. */
  lemma SlugFixedPoints(s: string)
    ensures Slug(s) == s <==> AllSlugChars(s) && NoDoubleHyphen(s)
  {
    if AllSlugChars(s) && NoDoubleHyphen(s) {
      SlugLowerOfSlugChars(s);
      RemoveNonWordOfSlugChars(s);
      assert NoSpace(s);
      DashSpacesOfNoSpace(s);
      SquashHyphensOfSingle(s);
      TrimOfNoSpace(s);
    }
    SlugShape(s);
  }

  /** Slugging a slug changes nothing. */
  lemma SlugIdempotent(title: string)
    ensures Slug(Slug(title)) == Slug(title)
  {
    SlugShape(title);
    SlugFixedPoints(Slug(title));
  }

  // ---------------------------------------------------------------- the steps on concatenations

  lemma {:induction false} SlugLowerAppend(a: string, b: string)
    ensures SlugLower(a + b) == SlugLower(a) + SlugLower(b)
  {
    if a != [] {
      assert (a + b)[1..] == a[1..] + b;
      SlugLowerAppend(a[1..], b);
    } else {
      assert a + b == b;
    }
  }

  lemma {:induction false} RemoveNonWordAppend(a: string, b: string)
    ensures RemoveNonWord(a + b) == RemoveNonWord(a) + RemoveNonWord(b)
  {
    if a != [] {
      assert (a + b)[1..] == a[1..] + b;
      RemoveNonWordAppend(a[1..], b);
    } else {
      assert a + b == b;
    }
  }

  /** Text without white space passes through the white-space replacement unchanged. */
  lemma {:induction false} DashSpacesAfterWord(a: string, b: string)
    requires NoSpace(a)
    ensures DashSpaces(a + b) == a + DashSpaces(b)
  {
    if a != [] {
      assert (a + b)[1..] == a[1..] + b;
      assert NoSpace(a[1..]);
      DashSpacesAfterWord(a[1..], b);
    } else {
      assert a + b == b;
    }
  }

  /** A whole white-space run, however long, becomes a single hyphen. */
  lemma DashSpacesAfterRun(a: string, b: string)
    requires a != [] && forall k :: 0 <= k < |a| ==> IsSpace(a[k])
    requires b == [] || !IsSpace(b[0])
    ensures DashSpaces(a + b) == "-" + DashSpaces(b)
  {
    RunLength(a + b, |a|, true);
    assert (a + b)[|a|..] == b;
  }

  /** Text without hyphens passes through the hyphen squashing unchanged. */
  lemma {:induction false} SquashHyphensAfterWord(a: string, b: string)
    requires forall k :: 0 <= k < |a| ==> a[k] != '-'
    ensures SquashHyphens(a + b) == a + SquashHyphens(b)
  {
    if a != [] {
      assert (a + b)[1..] == a[1..] + b;
      SquashHyphensAfterWord(a[1..], b);
    } else {
      assert a + b == b;
    }
  }

  /** A whole hyphen run, however long, becomes a single hyphen. */
  lemma SquashHyphensAfterRun(a: string, b: string)
    requires a != [] && forall k :: 0 <= k < |a| ==> a[k] == '-'
    requires b == [] || b[0] != '-'
    ensures SquashHyphens(a + b) == "-" + SquashHyphens(b)
  {
    RunLength(a + b, |a|, false);
    assert (a + b)[|a|..] == b;
  }

  /** The run functions measure the whole run: white space when `spaces`, hyphens otherwise. */
  lemma {:induction false} RunLength(s: string, n: nat, spaces: bool)
    requires n <= |s|
    requires forall k :: 0 <= k < n ==> if spaces then IsSpace(s[k]) else s[k] == '-'
    requires n < |s| ==> if spaces then !IsSpace(s[n]) else s[n] != '-'
    ensures spaces ==> SpaceRun(s) == n
    ensures !spaces ==> HyphenRun(s) == n
  {
    if n > 0 {
      RunLength(s[1..], n - 1, spaces);
    }
  }

  // ---------------------------------------------------------------- words

  /** A run of `\w` characters: letters, digits and `_`. */
  predicate Word(w: string) {
    w != [] && forall k :: 0 <= k < |w| ==> WordChar(w[k])
  }

  /** A word is lower-cased character by character and survives the punctuation filter. */
  lemma {:induction false} WordLowered(w: string)
    requires forall k :: 0 <= k < |w| ==> WordChar(w[k])
    ensures SlugLower(w) == ToLower(w)
    ensures AllSlugChars(ToLower(w)) && NoSpace(ToLower(w))
    ensures forall k :: 0 <= k < |w| ==> ToLower(w)[k] != '-'
    ensures RemoveNonWord(ToLower(w)) == ToLower(w)
  {
    if w != [] {
      WordLowered(w[1..]);
      assert ToLower(w) == [LowerChar(w[0])] + ToLower(w[1..]);
    }
    RemoveNonWordOfSlugChars(ToLower(w));
  }

  /** Every white-space character survives lower-casing and the removal of non-word characters. */
  lemma SpaceKept(c: char)
    requires IsSpace(c)
    ensures SlugLower([c]) == [c] && RemoveNonWord([c]) == [c]
  {
  }

  /** Capital I with dot above slugs to `i`: its combining dot is removed as a non-word character. */
  lemma SlugDottedI()
    ensures Slug("\U{0130}") == "i"
  {
    assert SlugLower("\U{0130}") == "i\U{0307}";
    assert RemoveNonWord("i\U{0307}") == "i";
    assert DashSpaces("i") == "i";
    assert SquashHyphens("i") == "i";
    TrimOfNoSpace("i");
  }

  lemma BlankStep()
    ensures SlugLower(" ") == " " && RemoveNonWord(" ") == " " && DashSpaces(" ") == "-"
    ensures SlugLower("-") == "-" && RemoveNonWord("-") == "-" && DashSpaces("-") == "-"
    ensures SquashHyphens("-") == "-"
  {
    DashSpacesAfterRun(" ", []);
    DashSpacesAfterWord("-", []);
    SquashHyphensAfterRun("-", []);
  }

  lemma LowerPadded(w: string)
    requires Word(w)
    ensures RemoveNonWord(SlugLower(" " + w + " ")) == " " + ToLower(w) + " "
  {
    WordLowered(w);
    BlankStep();
    SlugLowerAppend(" " + w, " ");
    SlugLowerAppend(" ", w);
    RemoveNonWordAppend(" " + ToLower(w), " ");
    RemoveNonWordAppend(" ", ToLower(w));
  }

  lemma DashPadded(l: string)
    requires l != [] && NoSpace(l)
    ensures DashSpaces(" " + l + " ") == "-" + l + "-"
  {
    BlankStep();
    assert " " + l + " " == " " + (l + " ");
    DashSpacesAfterRun(" ", l + " ");
    DashSpacesAfterWord(l, " ");
  }

  lemma SquashPadded(l: string)
    requires l != [] && forall k :: 0 <= k < |l| ==> l[k] != '-'
    ensures SquashHyphens("-" + l + "-") == "-" + l + "-"
  {
    BlankStep();
    assert "-" + l + "-" == "-" + (l + "-");
    SquashHyphensAfterRun("-", l + "-");
    SquashHyphensAfterWord(l, "-");
  }

  /** Surrounding blanks become hyphens that `trim` does not remove: ` Hello ` gives `-hello-`. */
  lemma SlugKeepsEdgeHyphens(w: string)
    requires Word(w)
    ensures Slug(" " + w + " ") == "-" + ToLower(w) + "-"
  {
    var l := ToLower(w);
    WordLowered(w);
    LowerPadded(w);
    DashPadded(l);
    SquashPadded(l);
    assert NoSpace("-" + l + "-");
    TrimOfNoSpace("-" + l + "-");
  }

  lemma LowerSpacedHyphen(a: string, b: string)
    requires Word(a) && Word(b)
    ensures RemoveNonWord(SlugLower(a + (" " + ("-" + (" " + b)))))
         == ToLower(a) + (" " + ("-" + (" " + ToLower(b))))
  {
    WordLowered(a);
    WordLowered(b);
    BlankStep();
    SlugLowerAppend(a, " " + ("-" + (" " + b)));
    SlugLowerAppend(" ", "-" + (" " + b));
    SlugLowerAppend("-", " " + b);
    SlugLowerAppend(" ", b);
    var lb := ToLower(b);
    RemoveNonWordAppend(ToLower(a), " " + ("-" + (" " + lb)));
    RemoveNonWordAppend(" ", "-" + (" " + lb));
    RemoveNonWordAppend("-", " " + lb);
    RemoveNonWordAppend(" ", lb);
  }

  lemma DashSpacedHyphen(la: string, lb: string)
    requires la != [] && lb != [] && NoSpace(la) && NoSpace(lb)
    ensures DashSpaces(la + (" " + ("-" + (" " + lb)))) == la + ("-" + ("-" + ("-" + lb)))
  {
    BlankStep();
    DashSpacesAfterWord(la, " " + ("-" + (" " + lb)));
    DashSpacesAfterRun(" ", "-" + (" " + lb));
    DashSpacesAfterWord("-", " " + lb);
    DashSpacesAfterRun(" ", lb);
    DashSpacesOfNoSpace(lb);
  }

  /** A hyphen followed by another hyphen adds nothing to the squashed result. */
  lemma SquashDoubledHyphen(x: string)
    ensures SquashHyphens("-" + ("-" + x)) == SquashHyphens("-" + x)
  {
    var s, t := "-" + ("-" + x), "-" + x;
    assert s[1..] == t;
    assert HyphenRun(s) == 1 + HyphenRun(t);
    assert s[HyphenRun(s)..] == t[HyphenRun(t)..];
  }

  lemma SquashTriple(la: string, lb: string)
    requires la != [] && lb != []
    requires forall k :: 0 <= k < |la| ==> la[k] != '-'
    requires forall k :: 0 <= k < |lb| ==> lb[k] != '-'
    ensures SquashHyphens(la + ("-" + ("-" + ("-" + lb)))) == la + ("-" + lb)
  {
    var t := "-" + lb;
    assert SquashHyphens(t) == t by {
      SquashHyphensAfterRun("-", lb);
      SquashHyphensOfSingle(lb);
    }
    assert SquashHyphens("-" + ("-" + t)) == SquashHyphens(t) by {
      SquashDoubledHyphen(t);
      SquashDoubledHyphen(lb);
    }
    SquashHyphensAfterWord(la, "-" + ("-" + t));
  }

  /**
   * A hyphen between blanks, as in `Re:Zero - Kara`, comes out as a single
   * hyphen: the blanks become hyphens and the run of three is squashed.
   */
  lemma SlugSquashesHyphens(a: string, b: string)
    requires Word(a) && Word(b)
    ensures Slug(a + " - " + b) == ToLower(a) + "-" + ToLower(b)
  {
    var la, lb := ToLower(a), ToLower(b);
    WordLowered(a);
    WordLowered(b);
    assert a + " - " + b == a + (" " + ("-" + (" " + b)));
    LowerSpacedHyphen(a, b);
    DashSpacedHyphen(la, lb);
    SquashTriple(la, lb);
    assert la + ("-" + lb) == la + "-" + lb;
    assert NoSpace(la + "-" + lb);
    TrimOfNoSpace(la + "-" + lb);
  }
}
