/**
 * The JavaScript string operations the two providers use, on `string`
 * (a sequence of Unicode scalar values).
 */
module Strings {
  import opened Wrappers

  /** The characters of the ECMAScript `\s` class, which are also the ones `trim` strips. */
  predicate IsSpace(c: char) {
    || c == ' ' || c == '\t' || c == '\n' || c == '\U{B}' || c == '\U{C}' || c == '\r'
    || c == '\U{A0}' || c == '\U{1680}' || ('\U{2000}' <= c <= '\U{200A}')
    || c == '\U{2028}' || c == '\U{2029}' || c == '\U{202F}' || c == '\U{205F}'
    || c == '\U{3000}' || c == '\U{FEFF}'
  }

  /** The ECMAScript `\d` class. */
  predicate IsDigit(c: char) {
    '0' <= c <= '9'
  }

  predicate AllDigits(s: string) {
    forall i :: 0 <= i < |s| ==> IsDigit(s[i])
  }

  /** `s.startsWith(p)` */
  predicate StartsWith(s: string, p: string) {
    |p| <= |s| && s[..|p|] == p
  }

  /** `t` occurs in `s` at position `j`. */
  predicate OccursAt(s: string, t: string, j: int) {
    0 <= j && j + |t| <= |s| && s[j..j + |t|] == t
  }

  lemma OccursShift(s: string, t: string, j: int)
    requires |s| > 0 && 1 <= j
    ensures OccursAt(s, t, j) <==> OccursAt(s[1..], t, j - 1)
  {
    if j + |t| <= |s| {
      assert s[j..j + |t|] == s[1..][j - 1..j - 1 + |t|];
    }
  }

  /** `s.indexOf(t)`: the first position at which `t` occurs in `s`. */
  function IndexOf(s: string, t: string): (r: Option<nat>)
    ensures r.Some? ==> OccursAt(s, t, r.value)
    ensures r.Some? ==> forall j :: 0 <= j < r.value ==> !OccursAt(s, t, j)
    ensures r.None? ==> forall j :: 0 <= j <= |s| ==> !OccursAt(s, t, j)
  {
    if StartsWith(s, t) then Some(0)
    else if |s| == 0 then None
    else match IndexOf(s[1..], t)
      case Some(k) =>
        OccursShift(s, t, k + 1);
        assert forall j :: 1 <= j < k + 1 ==> OccursAt(s, t, j) == OccursAt(s[1..], t, j - 1) by {
          forall j | 1 <= j < k + 1 { OccursShift(s, t, j); }
        }
        Some(k + 1)
      case None =>
        assert forall j :: 1 <= j <= |s| ==> OccursAt(s, t, j) == OccursAt(s[1..], t, j - 1) by {
          forall j | 1 <= j <= |s| { OccursShift(s, t, j); }
        }
        None
  }

  /** `s.includes(t)` */
  predicate Contains(s: string, t: string) {
    IndexOf(s, t).Some?
  }

  /** A string in which some character of `t` never appears does not contain `t`. */
  lemma NotContainsWithout(s: string, t: string, p: nat)
    requires p < |t| && forall i :: 0 <= i < |s| ==> s[i] != t[p]
    ensures !Contains(s, t)
  {
    forall j | 0 <= j <= |s| ensures !OccursAt(s, t, j) {
      assert j + p < |s| ==> s[j + p] != t[p];
      assert j + |t| <= |s| ==> s[j..j + |t|][p] == s[j + p];
    }
  }

  /** Concatenation is associative; stated once so that loops that append need not re-derive it. */
  lemma AppendAssoc<T>(a: seq<T>, b: seq<T>, c: seq<T>)
    ensures (a + b) + c == a + (b + c)
  {
  }

  /** A string starts with any of its prefixes. */
  lemma PrefixOfAppend(a: string, b: string)
    ensures StartsWith(a + b, a)
  {
    assert (a + b)[..|a|] == a;
  }

  /** Putting the same text in front keeps a prefix a prefix. */
  lemma PrefixAppend(a: string, f: string, p: string)
    requires StartsWith(f, p)
    ensures StartsWith(a + f, a + p)
  {
    assert (a + f)[..|a + p|] == a + f[..|p|];
  }

  /** A slice of the middle part of `pre + mid + post`, read off the middle part. */
  lemma InfixSlice<T>(pre: seq<T>, mid: seq<T>, post: seq<T>, a: nat, b: nat)
    requires a <= b <= |mid|
    ensures (pre + mid + post)[|pre| + a..|pre| + b] == mid[a..b]
  {
  }

  /** An element of the middle part of `pre + mid + post`. */
  lemma InfixAt<T>(pre: seq<T>, mid: seq<T>, post: seq<T>, k: nat)
    requires k < |mid|
    ensures (pre + mid + post)[|pre| + k] == mid[k]
  {
  }

  /** A sequence is its part before `k`, the `n` elements from `k` and the rest, put back together. */
  lemma SplitAround<T>(m: seq<T>, k: nat, n: nat)
    requires k + n <= |m|
    ensures m[..k] + m[k..k + n] + m[k + n..] == m
  {
  }

  /** Two adjacent occurrences form an occurrence of the concatenation. */
  lemma OccursConcat(s: string, p: string, q: string, k: int)
    requires OccursAt(s, p, k) && OccursAt(s, q, k + |p|)
    ensures OccursAt(s, p + q, k)
  {
    assert s[k..k + |p| + |q|] == s[k..k + |p|] + s[k + |p|..k + |p| + |q|];
  }

  /** An occurrence of a concatenation is an occurrence of each part, one after the other. */
  lemma OccursSplit(s: string, p: string, q: string, k: int)
    requires OccursAt(s, p + q, k)
    ensures OccursAt(s, p, k) && OccursAt(s, q, k + |p|)
  {
    assert s[k..k + |p|] == s[k..k + |p| + |q|][..|p|];
    assert s[k + |p|..k + |p| + |q|] == s[k..k + |p| + |q|][|p|..];
  }

  lemma ContainsAt(s: string, t: string, i: nat)
    requires OccursAt(s, t, i)
    ensures Contains(s, t)
  {
  }

  /** `t` occurs in `s` at `i` and at no earlier position. */
  predicate FirstAt(s: string, t: string, i: int) {
    OccursAt(s, t, i) && forall j :: 0 <= j < i ==> !OccursAt(s, t, j)
  }

  /** `s.replace(p, q)` with a string pattern: only the first occurrence is replaced. */
  function ReplaceFirst(s: string, p: string, q: string): (r: string)
    ensures !Contains(s, p) ==> r == s
    ensures Contains(s, p) ==> |r| == |s| - |p| + |q|
    ensures Contains(s, p) ==> exists i :: FirstAt(s, p, i) && r == s[..i] + q + s[i + |p|..]
  {
    match IndexOf(s, p)
    case None => s
    case Some(i) => s[..i] + q + s[i + |p|..]
  }

  function TrimStart(s: string): string {
    if |s| > 0 && IsSpace(s[0]) then TrimStart(s[1..]) else s
  }

  function TrimEnd(s: string): string {
    if |s| > 0 && IsSpace(s[|s| - 1]) then TrimEnd(s[..|s| - 1]) else s
  }

  lemma {:induction false} TrimStartFacts(s: string)
    ensures |TrimStart(s)| <= |s| && TrimStart(s) == s[|s| - |TrimStart(s)|..]
    ensures TrimStart(s) == [] || !IsSpace(TrimStart(s)[0])
    ensures forall i :: 0 <= i < |s| - |TrimStart(s)| ==> IsSpace(s[i])
  {
    if |s| > 0 && IsSpace(s[0]) {
      TrimStartFacts(s[1..]);
    }
  }

  lemma {:induction false} TrimEndFacts(s: string)
    ensures |TrimEnd(s)| <= |s| && TrimEnd(s) == s[..|TrimEnd(s)|]
    ensures TrimEnd(s) == [] || !IsSpace(TrimEnd(s)[|TrimEnd(s)| - 1])
    ensures forall i :: |TrimEnd(s)| <= i < |s| ==> IsSpace(s[i])
  {
    if |s| > 0 && IsSpace(s[|s| - 1]) {
      TrimEndFacts(s[..|s| - 1]);
    }
  }

  /** `s.trim()`: `s` without its leading and trailing white space. */
  function Trim(s: string): (r: string)
    ensures r == [] || (!IsSpace(r[0]) && !IsSpace(r[|r| - 1]))
  {
    TrimStartFacts(s);
    TrimEndFacts(TrimStart(s));
    TrimEnd(TrimStart(s))
  }

  /**
   * The trimmed string is an infix of `s` with only white space before and
   * after it in `s`; it is empty exactly when `s` is all white space.
   */
  lemma TrimInfix(s: string)
    ensures exists k :: OccursAt(s, Trim(s), k)
                        && (forall i :: 0 <= i < k ==> IsSpace(s[i]))
                        && (forall i :: k + |Trim(s)| <= i < |s| ==> IsSpace(s[i]))
    ensures Trim(s) == [] <==> forall i :: 0 <= i < |s| ==> IsSpace(s[i])
  {
    var a := TrimStart(s);
    var r := TrimEnd(a);
    TrimStartFacts(s);
    TrimEndFacts(a);
    assert r == Trim(s);
    assert r == s[|s| - |a|..][..|r|] == s[|s| - |a|..|s| - |a| + |r|];
    assert OccursAt(s, r, |s| - |a|);
  }

  /** A string that does not start or end with white space is its own trimmed form. */
  lemma TrimOfTrimmed(s: string)
    requires s == [] || (!IsSpace(s[0]) && !IsSpace(s[|s| - 1]))
    ensures Trim(s) == s
  {
  }

  lemma TrimIdempotent(s: string)
    ensures Trim(Trim(s)) == Trim(s)
  {
    TrimOfTrimmed(Trim(s));
  }

  /**
   * JavaScript truthiness of an attribute value: `null` (an absent attribute)
   * and the empty string are false.
   */
  predicate Truthy(o: Option<string>) {
    o.Some? && o.value != ""
  }

  /** `a || b` on two attribute values. */
  function Or(a: Option<string>, b: Option<string>): Option<string> {
    if Truthy(a) then a else b
  }

  /** `a || d` where the last alternative `d` is a string constant. */
  function OrElse(a: Option<string>, d: string): string {
    if Truthy(a) then a.value else d
  }

  /**
   * `s.toLowerCase()`, character by character. Besides the ASCII capitals,
   * KELVIN SIGN is the one character whose lower-case form is ASCII (`k`).
   * LATIN CAPITAL LETTER I WITH DOT ABOVE, which JavaScript turns into two
   * characters (`i` and a combining dot), is kept as it is: compared with an
   * ASCII string, both forms fail at the same place.
   */
  function ToLower(s: string): (r: string)
    ensures |r| == |s| && forall i :: 0 <= i < |s| ==> r[i] == LowerChar(s[i])
  {
    seq(|s|, i requires 0 <= i < |s| => LowerChar(s[i]))
  }

  function LowerChar(c: char): char {
    if 'A' <= c <= 'Z' then (c as int + 32) as char
    else if c == '\U{212A}' then 'k'
    else c
  }

  /**
   * What lower-casing does to each character: no `A`-`Z` survives, each
   * `A`-`Z` letter becomes the letter 32 code points later, KELVIN SIGN
   * becomes `k`, and every other character is kept.
   */
  lemma ToLowerCases(s: string)
    ensures |ToLower(s)| == |s|
    ensures forall i :: 0 <= i < |s| ==> !('A' <= ToLower(s)[i] <= 'Z')
    ensures forall i :: 0 <= i < |s| && 'A' <= s[i] <= 'Z' ==> ToLower(s)[i] as int == s[i] as int + 32
    ensures forall i :: 0 <= i < |s| && s[i] == '\U{212A}' ==> ToLower(s)[i] == 'k'
    ensures forall i :: 0 <= i < |s| && !('A' <= s[i] <= 'Z') && s[i] != '\U{212A}' ==> ToLower(s)[i] == s[i]
  {
  }

  lemma ToLowerAppend(a: string, b: string)
    ensures ToLower(a + b) == ToLower(a) + ToLower(b)
  {
  }

  lemma ToLowerIdempotent(s: string)
    ensures ToLower(ToLower(s)) == ToLower(s)
  {
  }

  /** A string containing `t` still contains it after more text is put around it. */
  lemma ContainsInfix(a: string, s: string, b: string, t: string)
    requires Contains(s, t)
    ensures Contains(a + s + b, t)
  {
    var i := IndexOf(s, t).value;
    assert (a + s + b)[|a| + i..|a| + i + |t|] == s[i..i + |t|];
    ContainsAt(a + s + b, t, |a| + i);
  }

  /** ASCII case-insensitive equality of `s` with the lower-case ASCII keyword `k`, as a `/i` regex compares. */
  predicate EqualsIgnoreCase(s: string, k: string) {
    |s| == |k| && forall i :: 0 <= i < |s| ==> s[i] == k[i] || s[i] as int == k[i] as int - 32
  }

  function DigitChar(d: nat): char
    requires d < 10
  {
    ('0' as int + d) as char
  }

  /** The decimal value of a run of digits (`parseInt` of a digit string). */
  function DigitsValue(s: string): nat
    requires AllDigits(s)
  {
    if s == [] then 0 else DigitsValue(s[..|s| - 1]) * 10 + (s[|s| - 1] as int - '0' as int)
  }

  /** The decimal form of a number, as a template literal writes it. */
  function NatToString(n: nat): (r: string)
    ensures |r| >= 1 && AllDigits(r)
    ensures r[0] == '0' ==> |r| == 1
    ensures DigitsValue(r) == n
  {
    if n < 10 then [DigitChar(n)]
    else
      var r := NatToString(n / 10) + [DigitChar(n % 10)];
      assert r[..|r| - 1] == NatToString(n / 10);
      r
  }

  function IntToString(i: int): (r: string)
    ensures forall k :: 0 <= k < |r| ==> r[k] == '-' || IsDigit(r[k])
  {
    if i < 0 then "-" + NatToString(-i) else NatToString(i)
  }

  /** The longest prefix of `s` made of digits. */
  function LeadingDigits(s: string): (r: string)
    ensures |r| <= |s| && AllDigits(r)
  {
    if s != [] && IsDigit(s[0]) then [s[0]] + LeadingDigits(s[1..]) else []
  }

  lemma {:induction false} LeadingDigitsFacts(s: string)
    ensures LeadingDigits(s) == s[..|LeadingDigits(s)|]
    ensures |LeadingDigits(s)| == |s| || !IsDigit(s[|LeadingDigits(s)|])
  {
    if s != [] && IsDigit(s[0]) { LeadingDigitsFacts(s[1..]); }
  }

  /** `s.split(c)` for a one-character separator. */
  function Split(s: string, c: char): (r: seq<string>)
    ensures |r| >= 1
    ensures forall k :: 0 <= k < |r| ==> c !in r[k]
    decreases |s|
  {
    match IndexOf(s, [c])
    case None =>
      assert forall j :: 0 <= j < |s| ==> s[j] != c by {
        forall j | 0 <= j < |s| ensures s[j] != c {
          assert !OccursAt(s, [c], j);
          assert s[j..j + 1] == [s[j]];
        }
      }
      [s]
    case Some(i) =>
      assert forall j :: 0 <= j < i ==> s[j] != c by {
        forall j | 0 <= j < i ensures s[j] != c {
          assert !OccursAt(s, [c], j);
          assert s[j..j + 1] == [s[j]];
        }
      }
      [s[..i]] + Split(s[i + 1..], c)
  }

  /** `pieces.join(c)`: the pieces with one separator between neighbours. */
  function Join(pieces: seq<string>, c: char): string {
    if |pieces| == 0 then ""
    else if |pieces| == 1 then pieces[0]
    else pieces[0] + [c] + Join(pieces[1..], c)
  }

  /** The first separator after a separator-free stretch is the one that ends it. */
  lemma FirstSeparator(a: string, tail: string, c: char)
    requires c !in a && |tail| >= 1 && tail[0] == c
    ensures IndexOf(a + tail, [c]) == Some(|a|)
  {
    var s := a + tail;
    assert OccursAt(s, [c], |a|) by {
      assert s[|a|..|a| + 1] == [tail[0]];
    }
    forall j | 0 <= j < |a|
      ensures !OccursAt(s, [c], j)
    {
      assert s[j] == a[j];
      assert s[j..j + 1] == [a[j]];
    }
    var r := IndexOf(s, [c]);
    assert r.Some?;
    assert !(r.value < |a|);
    assert !(r.value > |a|);
  }

  /** A string without the separator is not found to hold it. */
  lemma NoSeparator(s: string, c: char)
    requires c !in s
    ensures IndexOf(s, [c]) == None
  {
    NotContainsWithout(s, [c], 0);
  }

  /** Joining the pieces of a split gives back the text. */
  lemma {:induction false} SplitJoin(s: string, c: char)
    ensures Join(Split(s, c), c) == s
    decreases |s|
  {
    match IndexOf(s, [c])
    case None =>
    case Some(i) =>
      var rest := Split(s[i + 1..], c);
      SplitJoin(s[i + 1..], c);
      JoinCons(s[..i], rest, c);
      assert s[i..i + 1] == [c];
      assert s == s[..i] + [c] + s[i + 1..];
  }

  /** Joining a first piece in front of at least one more puts a separator after it. */
  lemma JoinCons(first: string, rest: seq<string>, c: char)
    requires |rest| >= 1
    ensures Join([first] + rest, c) == first + [c] + Join(rest, c)
  {
    assert ([first] + rest)[1..] == rest;
  }

  /** Splitting a join of separator-free pieces gives back the pieces. */
  lemma {:induction false} JoinSplit(pieces: seq<string>, c: char)
    requires |pieces| >= 1 && forall k :: 0 <= k < |pieces| ==> c !in pieces[k]
    ensures Split(Join(pieces, c), c) == pieces
  {
    if |pieces| == 1 {
      NoSeparator(pieces[0], c);
    } else {
      var first, tail := pieces[0], pieces[1..];
      var rest := Join(tail, c);
      assert pieces == [first] + tail;
      JoinCons(first, tail, c);
      AppendAssoc(first, [c], rest);
      JoinSplitStep(first, rest, c);
      JoinSplit(tail, c);
    }
  }

  /** A separator-free first piece, a separator and the rest split into that piece and the split of the rest. */
  lemma JoinSplitStep(first: string, rest: string, c: char)
    requires c !in first
    ensures Split(first + ([c] + rest), c) == [first] + Split(rest, c)
  {
    var s := first + ([c] + rest);
    FirstSeparator(first, [c] + rest, c);
    assert s[..|first|] == first;
    assert s[|first| + 1..] == rest;
  }
}
