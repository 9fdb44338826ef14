/** The string operations of Python the audit log relies on, over `seq<char>`: `str.isspace`,
    `strip`, `ljust`, substring search, `readlines` on a file's text, and decimal `str(int)`. */
module Text {
  import opened Common

  /** `str.isspace` on one character: the ASCII whitespace and separators U+001C..U+001F, and
      the Unicode spaces U+0085, U+00A0, U+1680, U+2000..U+200A, U+2028, U+2029, U+202F,
      U+205F and U+3000. */
  predicate IsSpace(c: char)
  {
    || c == ' '
    || '\t' <= c <= '\r'
    || '\U{1c}' <= c <= '\U{1f}'
    || c == '\U{85}' || c == '\U{a0}' || c == '\U{1680}'
    || '\U{2000}' <= c <= '\U{200a}'
    || c == '\U{2028}' || c == '\U{2029}' || c == '\U{202f}' || c == '\U{205f}' || c == '\U{3000}'
  }

  /** Every character lies between space and tilde. */
  predicate Printable(s: string)
  {
    forall i :: 0 <= i < |s| ==> ' ' <= s[i] <= '~'
  }

  /** `lstrip()`: the suffix left after dropping leading whitespace. */
  function TrimStart(s: string): (r: string)
    ensures |r| <= |s|
  {
    if s == [] || !IsSpace(s[0]) then s else TrimStart(s[1..])
  }

  /** `lstrip()` leaves a suffix. */
  lemma {:induction false} TrimStartSuffix(s: string)
    ensures TrimStart(s) == s[|s| - |TrimStart(s)|..]
  {
    if s != [] && IsSpace(s[0]) {
      TrimStartSuffix(s[1..]);
      assert s[1..][|s| - 1 - |TrimStart(s[1..])|..] == s[|s| - |TrimStart(s)|..];
    }
  }

  /** `lstrip()` drops whitespace only, and all of it up to the first other character. */
  lemma {:induction false} TrimStartSpaces(s: string)
    ensures var r := TrimStart(s); r == [] || !IsSpace(r[0])
    ensures var r := TrimStart(s); forall i :: 0 <= i < |s| - |r| ==> IsSpace(s[i])
  {
    if s != [] && IsSpace(s[0]) {
      TrimStartSpaces(s[1..]);
      var r := TrimStart(s);
      forall i | 0 <= i < |s| - |r| ensures IsSpace(s[i]) {
        if i > 0 { assert s[1..][i - 1] == s[i]; }
      }
    }
  }

  /** `rstrip()`: the prefix left after dropping trailing whitespace. */
  function TrimEnd(s: string): (r: string)
    ensures |r| <= |s|
  {
    if s == [] || !IsSpace(s[|s| - 1]) then s else TrimEnd(s[..|s| - 1])
  }

  /** `rstrip()` leaves a prefix. */
  lemma {:induction false} TrimEndPrefix(s: string)
    ensures TrimEnd(s) == s[..|TrimEnd(s)|]
  {
    if s != [] && IsSpace(s[|s| - 1]) {
      TrimEndPrefix(s[..|s| - 1]);
      assert s[..|s| - 1][..|TrimEnd(s)|] == s[..|TrimEnd(s)|];
    }
  }

  /** `rstrip()` drops whitespace only, and all of it after the last other character. */
  lemma {:induction false} TrimEndSpaces(s: string)
    ensures var r := TrimEnd(s); r == [] || !IsSpace(r[|r| - 1])
    ensures var r := TrimEnd(s); forall i :: |r| <= i < |s| ==> IsSpace(s[i])
  {
    if s != [] && IsSpace(s[|s| - 1]) {
      TrimEndSpaces(s[..|s| - 1]);
      var r := TrimEnd(s);
      forall i | |r| <= i < |s| ensures IsSpace(s[i]) {
        if i < |s| - 1 { assert s[..|s| - 1][i] == s[i]; }
      }
    }
  }

  /** `strip()`. */
  function Strip(s: string): (r: string)
  {
    TrimEnd(TrimStart(s))
  }

  /** `strip()` leaves no whitespace at either end. */
  lemma StripEnds(s: string)
    ensures var r := Strip(s); r == [] || (!IsSpace(r[0]) && !IsSpace(r[|r| - 1]))
  {
    var t := TrimStart(s);
    TrimStartSpaces(s);
    TrimEndSpaces(t);
    TrimEndPrefix(t);
    assert TrimEnd(t) != [] ==> t != [] && TrimEnd(t)[0] == t[0];
  }

  lemma {:induction false} TrimStartAppend(s: string, c: char)
    ensures TrimStart(s + [c]) == if TrimStart(s) == [] && IsSpace(c) then [] else TrimStart(s) + [c]
  {
    if s == [] {
      assert [] + [c] == [c];
      assert [c][1..] == [];
    } else if IsSpace(s[0]) {
      SplitAppend(s, [c], 1);
      assert (s + [c])[0] == s[0];
      assert TrimStart(s + [c]) == TrimStart(s[1..] + [c]);
      assert TrimStart(s) == TrimStart(s[1..]);
      TrimStartAppend(s[1..], c);
    } else {
      assert (s + [c])[0] == s[0];
      assert TrimStart(s) == s;
    }
  }

  /** A trailing whitespace character, such as a line's newline, does not survive `strip()`. */
  lemma StripDropsTrailingSpace(s: string, c: char)
    requires IsSpace(c)
    ensures Strip(s + [c]) == Strip(s)
  {
    TrimStartAppend(s, c);
    var t := TrimStart(s);
    if t != [] {
      assert (t + [c])[..|t|] == t;
    }
  }

  /** `strip()` gives nothing exactly when every character is whitespace. */
  lemma StripEmpty(s: string)
    ensures Strip(s) == [] <==> forall i :: 0 <= i < |s| ==> IsSpace(s[i])
  {
    var t := TrimStart(s);
    TrimStartSpaces(s);
    TrimEndSpaces(t);
    TrimStartSuffix(s);
    assert TrimEnd(t) == [] ==> t == [];
  }

  /** A string with a character that is not whitespace does not strip to nothing. */
  lemma StripNonEmpty(s: string, i: nat)
    requires i < |s| && !IsSpace(s[i])
    ensures Strip(s) != []
  {
    StripEmpty(s);
  }

  /** `s.ljust(width)`: padded with spaces on the right, never truncated. */
  function LeftJustify(s: string, width: nat): (r: string)
    ensures |r| == if |s| >= width then |s| else width
  {
    if |s| >= width then s else s + seq(width - |s|, _ => ' ')
  }

  /** The padded text starts with the text itself and continues with spaces only. */
  lemma LeftJustifyPadding(s: string, width: nat)
    ensures LeftJustify(s, width)[..|s|] == s
    ensures forall i :: |s| <= i < |LeftJustify(s, width)| ==> LeftJustify(s, width)[i] == ' '
  {
  }

  /** `sub` stands in `s` at position `i`. */
  predicate OccursAt(s: string, sub: string, i: int)
  {
    0 <= i <= |s| - |sub| && s[i..i + |sub|] == sub
  }

  /** `sub in s`. */
  function Contains(s: string, sub: string): (b: bool)
    ensures b <==> exists i :: OccursAt(s, sub, i)
  {
    if |sub| > |s| then false
    else if s[..|sub|] == sub then
      assert OccursAt(s, sub, 0);
      true
    else
      var b := Contains(s[1..], sub);
      assert b ==> exists i :: OccursAt(s, sub, i) by {
        if b {
          var j :| OccursAt(s[1..], sub, j);
          assert s[j + 1..j + 1 + |sub|] == s[1..][j..j + |sub|];
          assert OccursAt(s, sub, j + 1);
        }
      }
      assert (exists i :: OccursAt(s, sub, i)) ==> b by {
        if i :| OccursAt(s, sub, i) {
          assert i != 0;
          assert s[1..][i - 1..i - 1 + |sub|] == s[i..i + |sub|];
          assert OccursAt(s[1..], sub, i - 1);
        }
      }
      b
  }

  /** An occurrence stays where it is when text is appended. */
  lemma OccursAppend(x: string, y: string, sub: string, p: int)
    requires OccursAt(x, sub, p)
    ensures OccursAt(x + y, sub, p)
  {
    assert (x + y)[p..p + |sub|] == x[p..p + |sub|];
  }

  /** An occurrence moves by the length of text put in front. */
  lemma OccursPrepend(x: string, y: string, sub: string, p: int)
    requires OccursAt(y, sub, p)
    ensures OccursAt(x + y, sub, |x| + p)
  {
    assert (x + y)[|x| + p..|x| + p + |sub|] == y[p..p + |sub|];
  }

  /** An occurrence that starts at a character other than whitespace and is followed, further on,
      by another such character is still there after `strip()`. */
  lemma StripKeeps(s: string, sub: string, p: nat, q: nat)
    requires OccursAt(s, sub, p) && p < |s| && !IsSpace(s[p])
    requires p + |sub| <= q < |s| && !IsSpace(s[q])
    ensures Contains(Strip(s), sub)
  {
    var a := StripFrom(s);
    StripCovers(s, p, q);
    OccursWithin(s, Strip(s), a, sub, p);
    ContainsAt(Strip(s), sub, p - a);
  }

  lemma ContainsAt(s: string, sub: string, i: int)
    requires OccursAt(s, sub, i)
    ensures Contains(s, sub)
  {
  }

  /** `strip()` keeps the slice of `s` that starts where `lstrip()` stops. */
  lemma StripFrom(s: string) returns (a: nat)
    ensures a == |s| - |TrimStart(s)|
    ensures a + |Strip(s)| <= |s| && Strip(s) == s[a..a + |Strip(s)|]
  {
    var t := TrimStart(s);
    a := |s| - |t|;
    TrimStartSuffix(s);
    TrimEndPrefix(t);
    SliceOfSlice(s, a, |TrimEnd(t)|);
  }

  /** That slice holds any two characters `p <= q` of `s` other than whitespace. */
  lemma StripCovers(s: string, p: nat, q: nat)
    requires p <= q < |s| && !IsSpace(s[p]) && !IsSpace(s[q])
    ensures |s| - |TrimStart(s)| <= p && q < |s| - |TrimStart(s)| + |Strip(s)|
  {
    var t := TrimStart(s);
    TrimStartBound(s, p);
    TrimStartSuffix(s);
    SuffixIndex(s, t, q);
    TrimEndBound(t, q - (|s| - |t|));
  }

  /** `lstrip()` keeps every character from the first one that is not whitespace. */
  lemma TrimStartBound(s: string, p: nat)
    requires p < |s| && !IsSpace(s[p])
    ensures |s| - |TrimStart(s)| <= p
  {
    TrimStartSpaces(s);
  }

  lemma SuffixIndex(s: string, t: string, q: nat)
    requires |t| <= |s| && t == s[|s| - |t|..] && |s| - |t| <= q < |s|
    ensures t[q - (|s| - |t|)] == s[q]
  {
  }

  /** `rstrip()` keeps every character up to the last one that is not whitespace. */
  lemma TrimEndBound(t: string, q: nat)
    requires q < |t| && !IsSpace(t[q])
    ensures q < |TrimEnd(t)|
  {
    TrimEndSpaces(t);
  }

  /** An occurrence inside the slice `w == s[a..a + |w|]` is an occurrence in `w`. */
  lemma OccursWithin(s: string, w: string, a: nat, sub: string, p: nat)
    requires a + |w| <= |s| && w == s[a..a + |w|]
    requires a <= p && p + |sub| <= a + |w| && OccursAt(s, sub, p)
    ensures OccursAt(w, sub, p - a)
  {
    var x, y := w[p - a..p - a + |sub|], s[p..p + |sub|];
    forall i | 0 <= i < |sub|
      ensures x[i] == y[i]
    {
      assert w[p - a + i] == s[p + i];
    }
    assert x == y;
  }

  /** `readlines()` on the text of a file: each line keeps its "\n"; a last line without one
      stands as it is. */
  function Lines(s: string): (ls: seq<string>)
    decreases |s|
  {
    if s == [] then []
    else
      var k := FirstNewline(s);
      if k < |s| then [s[..k + 1]] + Lines(s[k + 1..]) else [s]
  }

  /** Position of the first "\n", or the length when there is none. */
  function FirstNewline(s: string): (k: nat)
    ensures k <= |s|
    ensures forall i :: 0 <= i < k ==> s[i] != '\n'
    ensures k < |s| ==> s[k] == '\n'
  {
    if s == [] || s[0] == '\n' then 0 else 1 + FirstNewline(s[1..])
  }

  /** The text of a file written line by line: empty or ending in a newline. */
  predicate Terminated(s: string)
  {
    s == [] || s[|s| - 1] == '\n'
  }

  /** Appending one newline-terminated line to such a text adds exactly that line. */
  lemma {:induction false} LinesAppend(s: string, line: string)
    requires Terminated(s) && '\n' !in line
    ensures Lines(s + line + "\n") == Lines(s) + [line + "\n"]
    decreases |s|
  {
    if s == [] {
      assert s + line + "\n" == line + "\n";
      LinesSingle(line);
    } else {
      var rest := s[FirstNewline(s) + 1..];
      assert Terminated(rest) by {
        if rest != [] { assert rest[|rest| - 1] == s[|s| - 1]; }
      }
      LinesAppend(rest, line);
      LinesAppendStep(s, line);
    }
  }

  /** The inductive step of `LinesAppend`: the first line of `s` is set aside. */
  lemma LinesAppendStep(s: string, line: string)
    requires Terminated(s) && s != []
    requires Lines(s[FirstNewline(s) + 1..] + line + "\n") == Lines(s[FirstNewline(s) + 1..]) + [line + "\n"]
    ensures Lines(s + line + "\n") == Lines(s) + [line + "\n"]
  {
    var u := line + "\n";
    var k := FirstNewline(s);
    var rest := s[k + 1..];
    AppendAssoc(s, line, "\n");
    AppendAssoc(rest, line, "\n");
    FirstNewlinePrefix(s, u);
    LinesFirst(s, u, k);
    assert Lines(s) == [s[..k + 1]] + Lines(rest);
    AppendAssoc([s[..k + 1]], Lines(rest), [u]);
  }

  /** The first line of `s + u` is that of `s` when `s` holds a newline. */
  lemma LinesFirst(s: string, u: string, k: nat)
    requires k == FirstNewline(s) && k < |s| && FirstNewline(s + u) == k
    ensures Lines(s + u) == [s[..k + 1]] + Lines(s[k + 1..] + u)
  {
    SplitAppend(s, u, k + 1);
  }

  lemma LinesSingle(line: string)
    requires '\n' !in line
    ensures Lines(line + "\n") == [line + "\n"]
  {
    var u := line + "\n";
    FirstNewlineOf(line);
    assert u[..|line| + 1] == u;
    assert u[|line| + 1..] == [];
  }

  lemma {:induction false} FirstNewlineOf(line: string)
    requires '\n' !in line
    ensures FirstNewline(line + "\n") == |line|
  {
    if line != [] {
      assert (line + "\n")[1..] == line[1..] + "\n";
      FirstNewlineOf(line[1..]);
    }
  }

  lemma {:induction false} FirstNewlinePrefix(s: string, u: string)
    requires FirstNewline(s) < |s|
    ensures FirstNewline(s + u) == FirstNewline(s)
  {
    if s[0] != '\n' {
      assert (s + u)[1..] == s[1..] + u;
      FirstNewlinePrefix(s[1..], u);
    }
  }

  function DigitChar(d: nat): (c: char)
    requires d < 10
    ensures '0' <= c <= '9'
  {
    "0123456789"[d]
  }

  /** `str(n)` for a natural number. */
  function NatToString(n: nat): (s: string)
    ensures |s| > 0
    ensures forall i :: 0 <= i < |s| ==> '0' <= s[i] <= '9'
  {
    if n < 10 then [DigitChar(n)] else NatToString(n / 10) + [DigitChar(n % 10)]
  }

  /** `str(i)`: a minus sign, then the digits. */
  function IntToString(i: int): (s: string)
    ensures |s| > 0 && Printable(s)
    ensures s[0] == '-' <==> i < 0
  {
    if i < 0 then "-" + NatToString(-i) else NatToString(i)
  }
}
