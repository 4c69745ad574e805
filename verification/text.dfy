/** The string operations of Python that the register relies on:
    `str.split(sep)` with a one-character separator, `str.strip()` and
    `str.lower()` (the last for ASCII and Latin-1 only).  Strings are sequences of Unicode scalar values. */
module Text {

  /** Python's `str.isspace()`: the characters `str.strip()` removes. */
  predicate IsSpace(c: char)
  {
    var n := c as int;
    || 0x09 <= n <= 0x0D
    || 0x1C <= n <= 0x20
    || n == 0x85 || n == 0xA0 || n == 0x1680
    || 0x2000 <= n <= 0x200A
    || n == 0x2028 || n == 0x2029 || n == 0x202F || n == 0x205F || n == 0x3000
  }

  /** Position of the first occurrence of `c` in `s`. */
  function IndexOf(s: string, c: char): (i: nat)
    requires c in s
    ensures i < |s| && s[i] == c && c !in s[..i]
  {
    if s[0] == c then 0 else 1 + IndexOf(s[1..], c)
  }

  /** The first occurrence is the only one with no earlier occurrence. */
  lemma {:induction false} IndexOfIs(s: string, c: char, i: nat)
    requires i < |s| && s[i] == c && c !in s[..i]
    ensures IndexOf(s, c) == i
  {
    if i > 0 {
      assert s[0] in s[..i];
      assert s[1..][..i - 1] == s[..i][1..];
      IndexOfIs(s[1..], c, i - 1);
    }
  }

  /** `s.split(sep)`: the pieces between the occurrences of `sep`. */
  function Split(s: string, sep: char): (parts: seq<string>)
    ensures |parts| >= 1
    ensures forall k :: 0 <= k < |parts| ==> sep !in parts[k]
    decreases |s|
  {
    if sep !in s then [s]
    else
      var i := IndexOf(s, sep);
      [s[..i]] + Split(s[i + 1..], sep)
  }

  /** A text splits into several pieces exactly when it holds the separator. */
  lemma SplitSeveral(s: string, sep: char)
    ensures sep in s <==> |Split(s, sep)| >= 2
  {
  }

  /** `sep.join(parts)`, the inverse of `Split`. */
  function Join(parts: seq<string>, sep: char): string
    requires |parts| >= 1
  {
    if |parts| == 1 then parts[0] else parts[0] + [sep] + Join(parts[1..], sep)
  }

  /** Splitting at a separator that is written out splits the two sides independently. */
  lemma {:induction false} SplitAppend(a: string, sep: char, b: string)
    ensures Split(a + [sep] + b, sep) == Split(a, sep) + Split(b, sep)
    decreases |a|
  {
    var s := a + [sep] + b;
    assert s[|a|] == sep;
    if sep !in a {
      assert s[..|a|] == a;
      assert s[|a| + 1..] == b;
      IndexOfIs(s, sep, |a|);
      calc {
        Split(s, sep);
        [s[..|a|]] + Split(s[|a| + 1..], sep);
        [a] + Split(b, sep);
      }
    } else {
      var j := IndexOf(a, sep);
      assert s[..j] == a[..j];
      IndexOfIs(s, sep, j);
      var tail := a[j + 1..];
      assert s[j + 1..] == tail + [sep] + b;
      SplitAppend(tail, sep, b);
      calc {
        Split(s, sep);
        [a[..j]] + Split(tail + [sep] + b, sep);
        [a[..j]] + (Split(tail, sep) + Split(b, sep));
        ([a[..j]] + Split(tail, sep)) + Split(b, sep);
      }
    }
  }

  /** A first piece free of the separator comes off whole. */
  lemma SplitCons(a: string, sep: char, rest: string)
    requires sep !in a
    ensures Split(a + [sep] + rest, sep) == [a] + Split(rest, sep)
  {
    SplitAppend(a, sep, rest);
  }

  /** Joining the pieces of a split gives the text back. */
  lemma {:induction false} JoinSplit(s: string, sep: char)
    ensures Join(Split(s, sep), sep) == s
    decreases |s|
  {
    if sep in s {
      var i := IndexOf(s, sep);
      var rest := Split(s[i + 1..], sep);
      var parts := Split(s, sep);
      assert parts == [s[..i]] + rest;
      assert parts[1..] == rest;
      assert Join(parts, sep) == s[..i] + [sep] + Join(rest, sep);
      JoinSplit(s[i + 1..], sep);
      assert s == s[..i] + [sep] + s[i + 1..];
    } else {
      assert Split(s, sep) == [s];
    }
  }

  /** Splitting the joined pieces gives the pieces back. */
  lemma {:induction false} SplitJoin(parts: seq<string>, sep: char)
    requires |parts| >= 1
    requires forall k :: 0 <= k < |parts| ==> sep !in parts[k]
    ensures Split(Join(parts, sep), sep) == parts
    decreases |parts|
  {
    if |parts| == 1 {
      assert sep !in parts[0];
    } else {
      var head, tail := parts[0], parts[1..];
      assert Split(head, sep) == [head];
      SplitJoin(tail, sep);
      SplitAppend(head, sep, Join(tail, sep));
      assert Join(parts, sep) == head + [sep] + Join(tail, sep);
      assert parts == [head] + tail;
    }
  }

  /** The pieces of a text free of a character are free of it too. */
  lemma {:induction false} SplitAvoids(s: string, sep: char, c: char)
    requires c !in s
    ensures forall k :: 0 <= k < |Split(s, sep)| ==> c !in Split(s, sep)[k]
    decreases |s|
  {
    if sep in s {
      var i := IndexOf(s, sep);
      var rest := Split(s[i + 1..], sep);
      SplitAvoids(s[i + 1..], sep, c);
      assert c !in s[..i];
      assert Split(s, sep) == [s[..i]] + rest;
    }
  }

  /** Joining pieces free of a character other than the separator leaves the text free of it. */
  lemma {:induction false} JoinAvoids(parts: seq<string>, sep: char, c: char)
    requires |parts| >= 1 && c != sep
    requires forall k :: 0 <= k < |parts| ==> c !in parts[k]
    ensures c !in Join(parts, sep)
    decreases |parts|
  {
    if |parts| > 1 {
      JoinAvoids(parts[1..], sep, c);
      assert c !in parts[0];
    }
  }

  /** The text without its trailing whitespace. */
  function TrimRight(s: string): (r: string)
    ensures |r| <= |s| && r == s[..|r|]
    ensures |r| > 0 ==> !IsSpace(r[|r| - 1])
    ensures forall k :: |r| <= k < |s| ==> IsSpace(s[k])
  {
    if |s| == 0 || !IsSpace(s[|s| - 1]) then s else TrimRight(s[..|s| - 1])
  }

  /** The text without its leading whitespace. */
  function TrimLeft(s: string): (r: string)
    ensures |r| <= |s| && r == s[|s| - |r|..]
    ensures |r| > 0 ==> !IsSpace(r[0])
    ensures forall k :: 0 <= k < |s| - |r| ==> IsSpace(s[k])
  {
    if |s| == 0 || !IsSpace(s[0]) then s else TrimLeft(s[1..])
  }

  /** The text without whitespace at either end. */
  function Strip(s: string): (r: string)
  {
    TrimLeft(TrimRight(s))
  }

  predicate AllSpace(s: string)
  {
    forall k :: 0 <= k < |s| ==> IsSpace(s[k])
  }

  lemma {:induction false} TrimRightSpaces(s: string, q: string)
    requires AllSpace(q)
    ensures TrimRight(s + q) == TrimRight(s)
    decreases |q|
  {
    if |q| > 0 {
      assert (s + q)[..|s + q| - 1] == s + q[..|q| - 1];
      TrimRightSpaces(s, q[..|q| - 1]);
    } else {
      assert s + q == s;
    }
  }

  lemma {:induction false} TrimLeftSpaces(p: string, s: string)
    requires AllSpace(p)
    ensures TrimLeft(p + s) == TrimLeft(s)
    decreases |p|
  {
    if |p| > 0 {
      assert (p + s)[1..] == p[1..] + s;
      TrimLeftSpaces(p[1..], s);
    } else {
      assert p + s == s;
    }
  }

  /** Stripping removes exactly the whitespace runs at both ends: text that
      does not start or end with whitespace survives padding on either side. */
  lemma StripPadding(p: string, m: string, q: string)
    requires AllSpace(p) && AllSpace(q)
    requires |m| > 0 ==> !IsSpace(m[0]) && !IsSpace(m[|m| - 1])
    ensures Strip(p + m + q) == m
  {
    TrimRightSpaces(p + m, q);
    if |m| == 0 {
      assert p + m == "" + p;
      TrimRightSpaces("", p);
    } else {
      assert TrimRight(p + m) == p + m;
      TrimLeftSpaces(p, m);
    }
  }

  /** A whitespace character at the end makes no difference to stripping. */
  lemma StripTrailingSpace(t: string, c: char)
    requires IsSpace(c)
    ensures Strip(t + [c]) == Strip(t)
  {
    TrimRightSpaces(t, [c]);
  }

  /** Only all-whitespace text strips to nothing. */
  lemma StripEmpty(s: string)
    ensures Strip(s) == "" <==> AllSpace(s)
  {
    if AllSpace(s) {
      assert s == s + "" + "";
      StripPadding(s, "", "");
    }
  }

  /** Text holding a non-whitespace character, whatever follows, does not
      strip to nothing. */
  lemma NotBlank(a: string, b: string, c: char)
    requires c in a && !IsSpace(c)
    ensures Strip(a + b) != ""
  {
    var k :| 0 <= k < |a| && a[k] == c;
    assert (a + b)[k] == c;
    StripEmpty(a + b);
  }

  /** Python's `str.lower()` on one character: ASCII and Latin-1 capitals. */
  function LowerChar(c: char): (d: char)
  {
    if 'A' <= c <= 'Z' then (c as int + 32) as char
    else if 0xC0 <= c as int <= 0xDE && c as int != 0xD7 then (c as int + 32) as char
    else c
  }

  /** Lower-casing character by character; only the ASCII and Latin-1 capitals
      are folded, so this is Python's lower-casing on that part of Unicode only. */
  function Lower(s: string): (r: string)
    ensures |r| == |s|
    ensures forall k :: 0 <= k < |s| ==> r[k] == LowerChar(s[k])
  {
    seq(|s|, k requires 0 <= k < |s| => LowerChar(s[k]))
  }

  /** Names the checkout treats as the same product: equal after lower-casing. */
  predicate SameName(a: string, b: string)
  {
    Lower(a) == Lower(b)
  }
}
