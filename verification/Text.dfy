// Python string operations the document checks rely on.
module Text {
  // The ASCII characters Python strips: blanks, line ends and the four separators.
  predicate IsSpace(c: char) {
    c == ' ' || '\t' <= c <= '\r' || '\U{1C}' <= c <= '\U{1F}'
  }

  lemma SpacesAre(c: char)
    ensures IsSpace(c) <==> c in "\t\n\U{0B}\U{0C}\r\U{1C}\U{1D}\U{1E}\U{1F} "
  {
  }

  // Something other than white space is left.
  predicate NonBlank(s: string) {
    exists i :: 0 <= i < |s| && !IsSpace(s[i])
  }

  function StripLeft(s: string): string {
    if s != [] && IsSpace(s[0]) then StripLeft(s[1..]) else s
  }

  function StripRight(s: string): string {
    if s != [] && IsSpace(s[|s| - 1]) then StripRight(s[..|s| - 1]) else s
  }

  function Strip(s: string): string {
    StripRight(StripLeft(s))
  }

  predicate Blank(s: string) {
    forall i | 0 <= i < |s| :: IsSpace(s[i])
  }

  // Stripping takes white space off both ends, all of it and nothing else.
  lemma StripTrims(s: string) returns (front: string, back: string)
    ensures s == front + Strip(s) + back && Blank(front) && Blank(back)
    ensures var t := Strip(s); t != [] ==> !IsSpace(t[0]) && !IsSpace(t[|t| - 1])
  {
    var rest := StripLeft(s);
    front := LeftTrims(s);
    back := RightTrims(rest);
    assert s == front + (Strip(s) + back);
    if Strip(s) != [] {
      assert Strip(s)[0] == rest[0];
    }
  }

  lemma {:induction false} LeftTrims(s: string) returns (front: string)
    ensures s == front + StripLeft(s) && Blank(front)
    ensures StripLeft(s) != [] ==> !IsSpace(StripLeft(s)[0])
  {
    front := [];
    if s != [] && IsSpace(s[0]) {
      var more := LeftTrims(s[1..]);
      front := [s[0]] + more;
    }
  }

  lemma {:induction false} RightTrims(s: string) returns (back: string)
    ensures s == StripRight(s) + back && Blank(back)
    ensures var t := StripRight(s); t != [] ==> !IsSpace(t[|t| - 1])
  {
    back := [];
    if s != [] && IsSpace(s[|s| - 1]) {
      var more := RightTrims(s[..|s| - 1]);
      back := more + [s[|s| - 1]];
    }
  }

  lemma {:induction false} StripLeftKeeps(s: string)
    ensures NonBlank(s) ==> NonBlank(StripLeft(s))
  {
    if s != [] && IsSpace(s[0]) {
      if NonBlank(s) {
        var i :| 0 <= i < |s| && !IsSpace(s[i]);
        assert !IsSpace(s[1..][i - 1]);
      }
      StripLeftKeeps(s[1..]);
    }
  }

  lemma {:induction false} StripRightKeeps(s: string)
    ensures NonBlank(s) ==> NonBlank(StripRight(s))
  {
    if s != [] && IsSpace(s[|s| - 1]) {
      if NonBlank(s) {
        var i :| 0 <= i < |s| && !IsSpace(s[i]);
        assert !IsSpace(s[..|s| - 1][i]);
      }
      StripRightKeeps(s[..|s| - 1]);
    }
  }

  // Stripping a name that is not blank leaves a name that is not blank.
  lemma StripKeepsNonBlank(s: string)
    requires NonBlank(s)
    ensures NonBlank(Strip(s))
  {
    StripLeftKeeps(s);
    StripRightKeeps(StripLeft(s));
  }

  // Lexicographic order by code point.
  predicate StringLe(a: string, b: string) {
    if a == [] then true
    else if b == [] then false
    else if a[0] != b[0] then a[0] < b[0]
    else StringLe(a[1..], b[1..])
  }

  lemma {:induction false} StringLeTotal(a: string, b: string)
    ensures StringLe(a, b) || StringLe(b, a)
    ensures StringLe(a, b) && StringLe(b, a) ==> a == b
  {
    if a != [] && b != [] && a[0] == b[0] {
      StringLeTotal(a[1..], b[1..]);
      assert a == [a[0]] + a[1..] && b == [b[0]] + b[1..];
    }
  }

  lemma {:induction false} StringLeTransitive(a: string, b: string, c: string)
    requires StringLe(a, b) && StringLe(b, c)
    ensures StringLe(a, c)
  {
    if a != [] && b != [] && c != [] && a[0] == b[0] == c[0] {
      StringLeTransitive(a[1..], b[1..], c[1..]);
    }
  }

  ghost predicate FirstLess(a: string, b: string, k: nat) {
    k < |a| && k < |b| && a[..k] == b[..k] && a[k] < b[k]
  }

  // A prefix, or less at the first difference.
  lemma {:induction false} StringLeReads(a: string, b: string)
    ensures StringLe(a, b) <==> a <= b || exists k: nat :: FirstLess(a, b, k)
  {
    if a != [] && b != [] {
      FirstLessInTails(a, b);
      if a[0] == b[0] {
        StringLeReads(a[1..], b[1..]);
        assert a <= b <==> a[1..] <= b[1..];
      } else {
        assert !(a <= b);
      }
    }
  }

  lemma FirstLessInTails(a: string, b: string)
    requires a != [] && b != []
    ensures (exists k: nat :: FirstLess(a, b, k))
        <==> a[0] < b[0] || (a[0] == b[0] && exists k: nat :: FirstLess(a[1..], b[1..], k))
  {
    if a[0] < b[0] {
      assert FirstLess(a, b, 0);
    }
    forall k: nat | FirstLess(a, b, k)
      ensures a[0] < b[0] || (a[0] == b[0] && FirstLess(a[1..], b[1..], k - 1))
    {
      if k > 0 {
        assert a[0] == a[..k][0] == b[..k][0] == b[0];
        assert a[1..][..k - 1] == a[..k][1..] == b[..k][1..] == b[1..][..k - 1];
      }
    }
    forall k: nat | a[0] == b[0] && FirstLess(a[1..], b[1..], k)
      ensures FirstLess(a, b, k + 1)
    {
      assert a[..k + 1] == [a[0]] + a[1..][..k] && b[..k + 1] == [b[0]] + b[1..][..k];
    }
  }

  const HEX := "0123456789abcdef"

  // A lowercase SHA-256 in hexadecimal.
  predicate IsSha256(s: string) {
    |s| == 64 && forall i | 0 <= i < |s| :: s[i] in HEX
  }

  lemma HashReads(s: string)
    ensures IsSha256(s) <==> |s| == 64 && forall i | 0 <= i < |s| :: '0' <= s[i] <= '9' || 'a' <= s[i] <= 'f'
  {
    forall c: char | '0' <= c <= '9' || 'a' <= c <= 'f'
      ensures c in HEX
    {
      HexDigit(c);
    }
  }

  lemma HexDigit(c: char)
    requires '0' <= c <= '9' || 'a' <= c <= 'f'
    ensures c in HEX
  {
    if '0' <= c <= '9' {
      assert HEX[c as int - '0' as int] == c;
    } else {
      assert HEX[c as int - 'a' as int + 10] == c;
    }
  }
}
