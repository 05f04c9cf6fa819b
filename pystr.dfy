/** The Python `str` methods the header normalisation uses, on ASCII: the
    letters `A`-`Z` and `a`-`z` are the only cased characters, and every
    other character is left as it is by the case mappings. */
module PyStr {

  predicate IsUpper(c: char) { 'A' <= c <= 'Z' }
  predicate IsLower(c: char) { 'a' <= c <= 'z' }
  /** Python's notion of a cased character, restricted to ASCII. */
  predicate IsCased(c: char) { IsUpper(c) || IsLower(c) }

  /** The lower-case mapping of one character. */
  function Lower(c: char): (l: char)
    ensures IsCased(l) == IsCased(c) && !IsUpper(l)
    ensures !IsCased(c) || IsLower(c) ==> l == c
    ensures IsUpper(c) ==> l as int - 'a' as int == c as int - 'A' as int
  {
    if IsUpper(c) then (c as int + 32) as char else c
  }

  /** The upper-case (for ASCII also the title-case) mapping of one character. */
  function Upper(c: char): (u: char)
    ensures IsCased(u) == IsCased(c) && !IsLower(u)
    ensures !IsCased(c) || IsUpper(c) ==> u == c
    ensures IsLower(c) ==> u as int - 'A' as int == c as int - 'a' as int
    ensures Lower(u) == Lower(c)
  {
    if IsLower(c) then (c as int - 32) as char else c
  }

  /** `s.startswith(prefix)`: `s` is `prefix` followed by something. */
  predicate StartsWith(s: string, prefix: string)
    ensures StartsWith(s, prefix) <==> exists rest :: s == prefix + rest
  {
    assert |prefix| <= |s| ==> s == s[..|prefix|] + s[|prefix|..];
    |prefix| <= |s| && s[..|prefix|] == prefix
  }

  /** `s[n:]`, which is empty when `s` is shorter than `n`. */
  function SliceFrom(s: string, n: nat): (r: string)
    ensures |r| == if n <= |s| then |s| - n else 0
    ensures n <= |s| ==> s == s[..n] + r
  {
    if n <= |s| then s[n..] else []
  }

  /** `s.replace(from, to)` for one-character `from` and `to`: every
      occurrence of `from` becomes `to`. */
  function Replace(s: string, from: char, to: char): (r: string)
    ensures |r| == |s|
    ensures from != to ==> from !in r
    ensures forall i :: 0 <= i < |s| && s[i] == from ==> r[i] == to
    ensures forall i :: 0 <= i < |s| && s[i] != from ==> r[i] == s[i]
  {
    seq(|s|, i requires 0 <= i < |s| => if s[i] == from then to else s[i])
  }

  /** `s.upper()`. */
  function UpperStr(s: string): (r: string)
    ensures |r| == |s|
    ensures forall i :: 0 <= i < |s| ==> !IsLower(r[i]) && Lower(r[i]) == Lower(s[i])
  {
    seq(|s|, i requires 0 <= i < |s| => Upper(s[i]))
  }

  /** `str.title()` as CPython computes it: a scan that maps each character
      to lower case when the character before it (in the input) is cased, and
      to title case otherwise. `previousIsCased` is the scan's state. */
  function TitleFrom(s: string, previousIsCased: bool): (r: string)
    ensures |r| == |s|
  {
    if s == [] then []
    else [if previousIsCased then Lower(s[0]) else Upper(s[0])] + TitleFrom(s[1..], IsCased(s[0]))
  }

  /** `s.title()`. */
  function Title(s: string): (r: string)
    ensures |r| == |s|
  {
    TitleFrom(s, false)
  }

  /** The case rule of a title-cased string: a character right after a cased
      character is not upper case, and any other character (the first one, or
      one after a digit, `_`, `-` or any other uncased character) is not
      lower case. */
  predicate IsTitled(s: string) {
    forall i {:trigger s[i]} :: 0 <= i < |s| ==>
      if 0 < i && IsCased(s[i - 1]) then !IsUpper(s[i]) else !IsLower(s[i])
  }

  /** `s` and `t` differ at most in the case of their letters. */
  predicate EqualIgnoringCase(s: string, t: string) {
    |s| == |t| && forall i :: 0 <= i < |s| ==> Lower(s[i]) == Lower(t[i])
  }

  lemma {:induction false} TitleFromAt(s: string, previousIsCased: bool, i: nat)
    requires i < |s|
    ensures TitleFrom(s, previousIsCased)[i] ==
      if (if i == 0 then previousIsCased else IsCased(s[i - 1])) then Lower(s[i]) else Upper(s[i])
  {
    if 0 < i {
      TitleFromAt(s[1..], IsCased(s[0]), i - 1);
    }
  }

  /** Each character of `s.title()` is determined by the input character at
      the same index and by whether the input character before it is cased. */
  lemma TitleAt(s: string, i: nat)
    requires i < |s|
    ensures Title(s)[i] == if 0 < i && IsCased(s[i - 1]) then Lower(s[i]) else Upper(s[i])
  {
    TitleFromAt(s, false, i);
  }

  /** `s.title()` follows the title-case rule and keeps the letters of `s`. */
  lemma TitleIsTitled(s: string)
    ensures IsTitled(Title(s))
    ensures EqualIgnoringCase(Title(s), s)
  {
    var t := Title(s);
    forall i | 0 <= i < |s|
      ensures Lower(t[i]) == Lower(s[i]) && IsCased(t[i]) == IsCased(s[i])
    {
      TitleAt(s, i);
    }
    forall i | 0 <= i < |t|
      ensures if 0 < i && IsCased(t[i - 1]) then !IsUpper(t[i]) else !IsLower(t[i])
    {
      TitleAt(s, i);
    }
  }

  /** `s.title()` is the only title-cased string that equals `s` up to case. */
  lemma TitleUnique(s: string, t: string)
    requires IsTitled(t) && EqualIgnoringCase(s, t)
    ensures Title(s) == t
  {
    forall i | 0 <= i < |s|
      ensures Title(s)[i] == t[i]
    {
      TitleAt(s, i);
      assert Lower(s[i]) == Lower(t[i]);
      var afterCased := 0 < i && IsCased(t[i - 1]);
      if 0 < i {
        assert Lower(s[i - 1]) == Lower(t[i - 1]);
        assert IsCased(s[i - 1]) == IsCased(t[i - 1]);
      }
      assert if afterCased then !IsUpper(t[i]) else !IsLower(t[i]);
      if afterCased {
        assert Title(s)[i] == Lower(s[i]);
      } else {
        assert Title(s)[i] == Upper(s[i]);
      }
    }
  }

  /** A string is its own title case exactly when it follows the title rule. */
  lemma TitleFixpoint(s: string)
    ensures Title(s) == s <==> IsTitled(s)
  {
    TitleIsTitled(s);
    if IsTitled(s) {
      TitleUnique(s, s);
    }
  }

  /** Title-casing twice is title-casing once. */
  lemma TitleIdempotent(s: string)
    ensures Title(Title(s)) == Title(s)
  {
    TitleIsTitled(s);
    TitleFixpoint(Title(s));
  }

  /** Replacing one uncased character by another keeps the title rule. */
  lemma ReplaceKeepsTitled(s: string, from: char, to: char)
    requires IsTitled(s) && !IsCased(from) && !IsCased(to)
    ensures IsTitled(Replace(s, from, to))
  {
  }
}
