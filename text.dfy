/** The Ruby `String` operations the workers rely on, over `seq<char>`. */
module Text {

  /** Ruby's `\s` class: space, tab, line feed, vertical tab, form feed, carriage return. */
  predicate IsSpace(c: char)
  {
    c == ' ' || c == '\t' || c == '\n' || c == '\U{B}' || c == '\U{C}' || c == '\r'
  }

  /** What `String#strip` removes from either end: `\s` and the null character. */
  predicate IsStripped(c: char)
  {
    c == '\0' || IsSpace(c)
  }

  predicate AllStripped(s: string)
  {
    forall i :: 0 <= i < |s| ==> IsStripped(s[i])
  }

  /** `s` without its leading strippable characters. */
  function DropLeft(s: string): (r: string)
    ensures |r| <= |s| && r == s[|s| - |r|..]
    ensures AllStripped(s[..|s| - |r|])
    ensures r == [] || !IsStripped(r[0])
  {
    if s != [] && IsStripped(s[0]) then
      var r := DropLeft(s[1..]);
      assert s[..|s| - |r|] == [s[0]] + s[1..][..|s| - 1 - |r|];
      r
    else s
  }

  /** `s` without its trailing strippable characters. */
  function DropRight(s: string): (r: string)
    ensures |r| <= |s| && r == s[..|r|]
    ensures AllStripped(s[|r|..])
    ensures r == [] || !IsStripped(r[|r| - 1])
  {
    if s != [] && IsStripped(s[|s| - 1]) then
      var r := DropRight(s[..|s| - 1]);
      assert s[|r|..] == s[..|s| - 1][|r|..] + [s[|s| - 1]];
      r
    else s
  }

  /** Ruby's `String#strip`. */
  function Strip(s: string): string
  {
    DropRight(DropLeft(s))
  }

  lemma {:induction false} DropLeftPadded(a: string, x: string)
    requires AllStripped(a) && (x == [] || !IsStripped(x[0]))
    ensures DropLeft(a + x) == x
    decreases |a|
  {
    if a == [] {
      assert a + x == x;
    } else {
      assert (a + x)[0] == a[0];
      assert (a + x)[1..] == a[1..] + x;
      DropLeftPadded(a[1..], x);
    }
  }

  lemma {:induction false} DropRightPadded(x: string, b: string)
    requires AllStripped(b) && (x == [] || !IsStripped(x[|x| - 1]))
    ensures DropRight(x + b) == x
    decreases |b|
  {
    if b == [] {
      assert x + b == x;
    } else {
      assert (x + b)[|x + b| - 1] == b[|b| - 1];
      assert (x + b)[..|x + b| - 1] == x + b[..|b| - 1];
      DropRightPadded(x, b[..|b| - 1]);
    }
  }

  /** The strip of a padded text is the text. */
  lemma StripOfPadded(a: string, t: string, b: string)
    requires t != [] && !IsStripped(t[0]) && !IsStripped(t[|t| - 1])
    requires AllStripped(a) && AllStripped(b)
    ensures Strip(a + t + b) == t
  {
    assert a + t + b == a + (t + b);
    assert (t + b)[0] == t[0];
    DropLeftPadded(a, t + b);
    DropRightPadded(t, b);
  }

  /** Every string is its strip padded on both sides. */
  lemma StripDecomposes(s: string) returns (i: nat, j: nat)
    ensures i <= j <= |s| && s[i..j] == Strip(s) && AllStripped(s[..i]) && AllStripped(s[j..])
  {
    var l := DropLeft(s);
    var r := DropRight(l);
    i := |s| - |l|;
    j := i + |r|;
    assert s[i..j] == l[..|r|];
    assert s[j..] == l[|r|..];
  }

  /** `s[i..j]` is `t`, with only strippable characters around it. */
  predicate PaddedAt(s: string, t: string, i: nat, j: nat)
  {
    i <= j <= |s| && s[i..j] == t && AllStripped(s[..i]) && AllStripped(s[j..])
  }

  /** For a text `t` that neither starts nor ends with a strippable character,
      `Strip(s) == t` exactly when `s` is `t` padded on both sides by strippable characters. */
  lemma StripIsPadding(s: string, t: string)
    requires t != [] && !IsStripped(t[0]) && !IsStripped(t[|t| - 1])
    ensures Strip(s) == t <==> exists i: nat, j: nat :: PaddedAt(s, t, i, j)
  {
    if Strip(s) == t {
      var i, j := StripDecomposes(s);
      assert PaddedAt(s, t, i, j);
    }
    if exists i: nat, j: nat :: PaddedAt(s, t, i, j) {
      var i: nat, j: nat :| PaddedAt(s, t, i, j);
      PaddingIsStripped(s, t, i, j);
    }
  }

  lemma PaddingIsStripped(s: string, t: string, i: nat, j: nat)
    requires t != [] && !IsStripped(t[0]) && !IsStripped(t[|t| - 1])
    requires PaddedAt(s, t, i, j)
    ensures Strip(s) == t
  {
    assert s == s[..i] + t + s[j..];
    StripOfPadded(s[..i], t, s[j..]);
  }

  /** All fields of `s` between occurrences of `sep`, empty ones included (Ruby's
      `split(sep, -1)`). */
  function Fields(s: string, sep: char): (r: seq<string>)
    ensures |r| >= 1
    ensures forall k :: 0 <= k < |r| ==> sep !in r[k]
    ensures |r[0]| <= |s| && r[0] == s[..|r[0]|] && (|r[0]| == |s| || s[|r[0]|] == sep)
  {
    if s == [] then [""]
    else
      var rest := Fields(s[1..], sep);
      if s[0] == sep then
        var r := [""] + rest;
        assert forall k :: 1 <= k < |r| ==> r[k] == rest[k - 1];
        r
      else
        var r := [[s[0]] + rest[0]] + rest[1..];
        assert s[..|r[0]|] == [s[0]] + s[1..][..|rest[0]|];
        assert forall k :: 1 <= k < |r| ==> r[k] == rest[k];
        r
  }

  /** Every field is empty exactly when the string is nothing but separators. */
  lemma {:induction false} FieldsAllEmpty(s: string, sep: char)
    ensures (forall k :: 0 <= k < |Fields(s, sep)| ==> Fields(s, sep)[k] == "") <==> (forall i :: 0 <= i < |s| ==> s[i] == sep)
    decreases |s|
  {
    if s != [] {
      FieldsAllEmpty(s[1..], sep);
      var rest := Fields(s[1..], sep);
      var r := Fields(s, sep);
      assert forall i :: 1 <= i < |s| ==> s[i] == s[1..][i - 1];
      if s[0] == sep {
        assert r == [""] + rest;
        assert forall k :: 1 <= k < |r| ==> r[k] == rest[k - 1];
        assert (exists k :: 0 <= k < |rest| && rest[k] != "") ==> (exists k :: 0 <= k < |r| && r[k] != "") by {
          if k :| 0 <= k < |rest| && rest[k] != "" { assert r[k + 1] != ""; }
        }
      } else {
        assert r[0] != "";
      }
    }
  }

  /** Drops the empty strings at the end of `fs`, as Ruby's `split` does with its result. */
  function DropTrailingEmpty(fs: seq<string>): (r: seq<string>)
    ensures |r| <= |fs| && r == fs[..|r|]
    ensures r == [] || r[|r| - 1] != ""
    ensures forall k :: |r| <= k < |fs| ==> fs[k] == ""
  {
    if fs != [] && fs[|fs| - 1] == "" then DropTrailingEmpty(fs[..|fs| - 1]) else fs
  }

  /** Ruby's `s.split(sep)` for a one-character separator: the fields between separators,
      trailing empty fields removed. */
  function Split(s: string, sep: char): (r: seq<string>)
    ensures forall k :: 0 <= k < |r| ==> sep !in r[k]
    ensures r == [] || r[|r| - 1] != ""
    ensures r == [] <==> forall i :: 0 <= i < |s| ==> s[i] == sep
    ensures r != [] ==> |r[0]| <= |s| && r[0] == s[..|r[0]|] && (|r[0]| == |s| || s[|r[0]|] == sep)
  {
    var fs := Fields(s, sep);
    FieldsAllEmpty(s, sep);
    var r := DropTrailingEmpty(fs);
    assert forall k :: 0 <= k < |r| ==> r[k] == fs[k];
    r
  }

  /** Joining one more empty field adds one separator. */
  lemma {:induction false} JoinSnocEmpty(parts: seq<string>, sep: string)
    requires parts != []
    ensures Join(parts + [""], sep) == Join(parts, sep) + sep
    decreases |parts|
  {
    if |parts| == 1 {
      assert (parts + [""])[1..] == [""];
    } else {
      assert (parts + [""])[1..] == parts[1..] + [""];
      JoinSnocEmpty(parts[1..], sep);
    }
  }

  /** The trailing empty fields that `DropTrailingEmpty` removes account for `k` separators. */
  lemma {:induction false} JoinDropTrailing(fs: seq<string>, sep: char) returns (k: nat)
    requires DropTrailingEmpty(fs) != []
    ensures Join(fs, [sep]) == Join(DropTrailingEmpty(fs), [sep]) + Repeat(sep, k)
    decreases |fs|
  {
    if fs[|fs| - 1] == "" {
      var init := fs[..|fs| - 1];
      var k0 := JoinDropTrailing(init, sep);
      assert fs == init + [""];
      JoinSnocEmpty(init, [sep]);
      assert Repeat(sep, k0 + 1) == Repeat(sep, k0) + [sep];
      k := k0 + 1;
    } else {
      k := 0;
    }
  }

  /** `split` loses only the separators at the end: joining its fields with the separator
      and putting back `k` trailing separators gives the string again. */
  lemma SplitRoundTrip(s: string, sep: char) returns (k: nat)
    ensures k <= |s| && Join(Split(s, sep), [sep]) + Repeat(sep, k) == s
  {
    var fs := Fields(s, sep);
    JoinFields(s, sep);
    if Split(s, sep) == [] {
      k := |s|;
      assert Repeat(sep, k) == s;
    } else {
      k := JoinDropTrailing(fs, sep);
    }
  }

  lemma {:induction false} FieldsOfSeparatorFree(x: string, sep: char)
    requires sep !in x
    ensures Fields(x, sep) == [x]
    decreases |x|
  {
    if x != [] {
      assert forall c :: c in x[1..] ==> c in x;
      FieldsOfSeparatorFree(x[1..], sep);
      assert [x[0]] + x[1..] == x;
    }
  }

  /** A separator-free first field, then the fields of the rest. */
  lemma {:induction false} FieldsAfterSeparator(a: string, sep: char, rest: string)
    requires sep !in a
    ensures Fields(a + [sep] + rest, sep) == [a] + Fields(rest, sep)
    decreases |a|
  {
    var s := a + [sep] + rest;
    if a == [] {
      assert s == [sep] + rest && s[1..] == rest;
    } else {
      assert s[0] == a[0] && s[1..] == a[1..] + [sep] + rest;
      assert forall c :: c in a[1..] ==> c in a;
      FieldsAfterSeparator(a[1..], sep, rest);
      assert [a[0]] + a[1..] == a;
    }
  }

  /** `(a + sep + b).split(sep)` is `[a, b]` when neither part holds the separator. */
  lemma SplitTwoFields(a: string, sep: char, b: string)
    requires sep !in a && sep !in b && b != ""
    ensures Split(a + [sep] + b, sep) == [a, b]
  {
    FieldsAfterSeparator(a, sep, b);
    FieldsOfSeparatorFree(b, sep);
    assert Fields(a + [sep] + b, sep) == [a, b];
  }

  /** Ruby's `parts.join(sep)`. */
  function Join(parts: seq<string>, sep: string): string
  {
    if parts == [] then ""
    else if |parts| == 1 then parts[0]
    else parts[0] + sep + Join(parts[1..], sep)
  }

  lemma JoinPrepend(x: string, y: string, tail: seq<string>, sep: string)
    ensures Join([x + y] + tail, sep) == x + Join([y] + tail, sep)
  {
    assert ([x + y] + tail)[1..] == tail == ([y] + tail)[1..];
  }

  /** Joining the fields of `s` with the separator gives `s` back. */
  lemma {:induction false} JoinFields(s: string, sep: char)
    ensures Join(Fields(s, sep), [sep]) == s
    decreases |s|
  {
    if s != [] {
      var rest := Fields(s[1..], sep);
      JoinFields(s[1..], sep);
      if s[0] == sep {
        assert ([""] + rest)[1..] == rest;
      } else {
        assert rest == [rest[0]] + rest[1..];
        JoinPrepend([s[0]], rest[0], rest[1..], [sep]);
      }
    }
  }

  predicate OccursAt(hay: string, needle: string, i: nat)
  {
    i + |needle| <= |hay| && hay[i..i + |needle|] == needle
  }

  /** Ruby's `hay.include?(needle)`. */
  predicate Contains(hay: string, needle: string)
  {
    exists i: nat :: i <= |hay| && OccursAt(hay, needle, i)
  }

  function LowerChar(c: char): char
  {
    if 'A' <= c <= 'Z' then (c as int + 32) as char else c
  }

  /** ASCII `downcase`. */
  function Lower(s: string): (r: string)
    ensures |r| == |s| && forall i :: 0 <= i < |s| ==> r[i] == LowerChar(s[i])
  {
    if s == [] then [] else [LowerChar(s[0])] + Lower(s[1..])
  }

  /** Down-casing twice is down-casing once. */
  lemma LowerIdempotent(s: string)
    ensures Lower(Lower(s)) == Lower(s)
  {
    assert forall i :: 0 <= i < |s| ==> LowerChar(LowerChar(s[i])) == LowerChar(s[i]);
  }

  function DigitChar(d: nat): char
    requires d < 10
  {
    ('0' as int + d) as char
  }

  /** Ruby's `Integer#to_s` for a natural number. */
  function NatToString(n: nat): (r: string)
    ensures r != [] && forall i :: 0 <= i < |r| ==> '0' <= r[i] <= '9'
  {
    if n < 10 then [DigitChar(n)] else NatToString(n / 10) + [DigitChar(n % 10)]
  }

  /** Ruby's `Integer#to_s`. */
  function IntToString(i: int): string
  {
    if i < 0 then "-" + NatToString(-i) else NatToString(i)
  }

  /** Ruby's `c * n` for a one-character string. */
  function Repeat(c: char, n: nat): (r: string)
    ensures |r| == n && forall i :: 0 <= i < n ==> r[i] == c
  {
    if n == 0 then [] else [c] + Repeat(c, n - 1)
  }

  /** Ruby's `s.ljust(width)`: pads with spaces on the right up to `width` characters. */
  function LJust(s: string, width: nat): (r: string)
    ensures |r| == if |s| < width then width else |s|
    ensures r[..|s|] == s && forall i :: |s| <= i < |r| ==> r[i] == ' '
  {
    if |s| < width then s + Repeat(' ', width - |s|) else s
  }
}
