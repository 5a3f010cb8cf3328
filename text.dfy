/** The JavaScript string operations the modelled code relies on, over `seq<char>`.
    Case mapping is ASCII only. */
module Text {
  import opened Wrappers

  /** `sub` occurs in `s` starting at index `i`. */
  predicate OccursAt(s: string, sub: string, i: nat) {
    i + |sub| <= |s| && s[i..i + |sub|] == sub
  }

  /** `s.indexOf(sub, from)`: the least index at or after `from` where `sub` occurs. */
  function IndexOfFrom(s: string, sub: string, from: nat): (r: Option<nat>)
    ensures r.Some? ==> from <= r.value && OccursAt(s, sub, r.value)
    ensures r.Some? ==> forall j: nat :: from <= j < r.value ==> !OccursAt(s, sub, j)
    ensures r.None? ==> forall j: nat :: from <= j ==> !OccursAt(s, sub, j)
    decreases |s| - from
  {
    if from + |sub| > |s| then None
    else if s[from..from + |sub|] == sub then Some(from)
    else IndexOfFrom(s, sub, from + 1)
  }

  /** `s.indexOf(sub)`, with `None` for -1. */
  function IndexOf(s: string, sub: string): (r: Option<nat>)
    ensures r.Some? ==> OccursAt(s, sub, r.value)
    ensures r.Some? ==> forall j: nat :: j < r.value ==> !OccursAt(s, sub, j)
    ensures r.None? ==> forall j: nat :: !OccursAt(s, sub, j)
  {
    IndexOfFrom(s, sub, 0)
  }

  /** `s.includes(sub)`. */
  predicate Contains(s: string, sub: string)
  {
    IndexOf(s, sub).Some?
  }

  /** `includes` holds exactly when there is an index where `sub` occurs. */
  lemma ContainsIff(s: string, sub: string)
    ensures Contains(s, sub) <==> exists i: nat :: OccursAt(s, sub, i)
  {
    if Contains(s, sub) {
      assert OccursAt(s, sub, IndexOf(s, sub).value);
    }
  }

  /** A witness index is enough to show `includes`. */
  lemma ContainsAt(s: string, sub: string, i: nat)
    requires OccursAt(s, sub, i)
    ensures Contains(s, sub)
  {
    ContainsIff(s, sub);
  }

  /** `b` occurs in `a + b + c`. */
  lemma ContainsMiddle(a: string, b: string, c: string)
    ensures Contains(a + b + c, b)
  {
    assert (a + b + c)[|a|..|a| + |b|] == b;
    ContainsAt(a + b + c, b, |a|);
  }

  /** A needle holding a character the haystack lacks never occurs. */
  lemma MissingCharNotContained(s: string, sub: string, c: char)
    requires c in sub && c !in s
    ensures !Contains(s, sub)
  {
    ContainsIff(s, sub);
  }

  /** A needle longer than the haystack never occurs. */
  lemma NotContainsLonger(s: string, sub: string)
    requires |s| < |sub|
    ensures !Contains(s, sub)
  {
  }

  // ---------------------------------------------------------------------------
  // String.prototype.replace with a string pattern

  /** The replacement string after JavaScript's `$` patterns are expanded (GetSubstitution with no
      capture groups): `$$` is `$`, `$&` the matched text, `` $` `` the text before the match, `$'`
      the text after it; every other `$` stands for itself. */
  function Expand(rep: string, matched: string, before: string, after: string): string
    decreases |rep|
  {
    if |rep| == 0 then ""
    else if rep[0] == '$' && |rep| >= 2 && rep[1] == '$' then "$" + Expand(rep[2..], matched, before, after)
    else if rep[0] == '$' && |rep| >= 2 && rep[1] == '&' then matched + Expand(rep[2..], matched, before, after)
    else if rep[0] == '$' && |rep| >= 2 && rep[1] == '`' then before + Expand(rep[2..], matched, before, after)
    else if rep[0] == '$' && |rep| >= 2 && rep[1] == '\'' then after + Expand(rep[2..], matched, before, after)
    else [rep[0]] + Expand(rep[1..], matched, before, after)
  }

  /** A replacement string without `$` is inserted literally. */
  lemma {:induction false} ExpandLiteral(rep: string, matched: string, before: string, after: string)
    requires '$' !in rep
    ensures Expand(rep, matched, before, after) == rep
    decreases |rep|
  {
    if |rep| > 0 {
      assert rep[0] != '$';
      ExpandLiteral(rep[1..], matched, before, after);
      assert rep == [rep[0]] + rep[1..];
    }
  }

  /** A `$`-free start of the replacement string is inserted literally. */
  lemma {:induction false} ExpandPrefix(p: string, rest: string, matched: string, before: string, after: string)
    requires '$' !in p
    ensures Expand(p + rest, matched, before, after) == p + Expand(rest, matched, before, after)
    decreases |p|
  {
    if |p| == 0 {
      assert p + rest == rest;
    } else {
      assert (p + rest)[0] == p[0] && p[0] != '$';
      assert (p + rest)[1..] == p[1..] + rest;
      ExpandPrefix(p[1..], rest, matched, before, after);
      assert p == [p[0]] + p[1..];
    }
  }

  /** `s.replace(pat, rep)` for a string `pat`: only the first occurrence is replaced. */
  function ReplaceFirst(s: string, pat: string, rep: string): (r: string)
    ensures IndexOf(s, pat).None? ==> r == s
  {
    match IndexOf(s, pat)
    case None => s
    case Some(i) =>
      var before, after := s[..i], s[i + |pat|..];
      before + Expand(rep, pat, before, after) + after
  }

  /** With a `$`-free replacement, `replace` cuts out the first occurrence of `pat` and puts `rep`
      in its place; the text before and after it is kept. */
  lemma ReplaceFirstLiteral(s: string, pat: string, rep: string)
    requires '$' !in rep
    requires IndexOf(s, pat).Some?
    ensures var i := IndexOf(s, pat).value;
      ReplaceFirst(s, pat, rep) == s[..i] + rep + s[i + |pat|..]
      && (forall j: nat :: j < i ==> !OccursAt(s, pat, j))
  {
    var i := IndexOf(s, pat).value;
    ExpandLiteral(rep, pat, s[..i], s[i + |pat|..]);
  }

  // ---------------------------------------------------------------------------
  // split and join on one character

  /** `s.split(sep)` for a one-character separator: never empty, pieces free of `sep`. */
  function Split(s: string, sep: char): (parts: seq<string>)
    ensures |parts| >= 1
    ensures forall k :: 0 <= k < |parts| ==> sep !in parts[k]
    decreases |s|
  {
    if |s| == 0 then [""]
    else
      var rest := Split(s[1..], sep);
      if s[0] == sep then [""] + rest
      else [[s[0]] + rest[0]] + rest[1..]
  }

  /** `parts.join(sep)`. */
  function Join(parts: seq<string>, sep: char): string
    decreases |parts|
  {
    if |parts| == 0 then ""
    else if |parts| == 1 then parts[0]
    else parts[0] + [sep] + Join(parts[1..], sep)
  }

  /** Joining the pieces of a split gives back the string. */
  lemma {:induction false} JoinSplit(s: string, sep: char)
    ensures Join(Split(s, sep), sep) == s
    decreases |s|
  {
    if |s| > 0 {
      var rest := Split(s[1..], sep);
      JoinSplit(s[1..], sep);
      if s[0] == sep {
        assert Split(s, sep) == [""] + rest;
        assert ([""] + rest)[1..] == rest;
        assert s == [sep] + s[1..];
      } else {
        var parts := [[s[0]] + rest[0]] + rest[1..];
        assert Split(s, sep) == parts;
        if |rest| == 1 {
          assert Join(rest, sep) == rest[0];
          assert s == [s[0]] + s[1..];
        } else {
          assert parts[1..] == rest[1..];
          assert Join(rest, sep) == rest[0] + [sep] + Join(rest[1..], sep);
          assert s == [s[0]] + s[1..];
        }
      }
    }
  }

  /** Splitting a separator-free word followed by more text extends the first piece by the word. */
  lemma {:induction false} SplitPrefix(w: string, rest: string, sep: char)
    requires sep !in w
    ensures var p := Split(rest, sep);
      Split(w + rest, sep) == [w + p[0]] + p[1..]
    decreases |w|
  {
    var p := Split(rest, sep);
    if |w| > 0 {
      var t := w[1..];
      var r := Split(t + rest, sep);
      assert Split(w + rest, sep) == [[w[0]] + r[0]] + r[1..] by {
        assert (w + rest)[0] == w[0] && w[0] != sep;
        assert (w + rest)[1..] == t + rest;
      }
      SplitPrefix(t, rest, sep);
      assert [w[0]] + (t + p[0]) == w + p[0] by {
        assert w == [w[0]] + t;
      }
    } else {
      assert w + rest == rest && w + p[0] == p[0];
      assert [p[0]] + p[1..] == p;
    }
  }

  /** Splitting a join of separator-free pieces gives back the pieces. */
  lemma {:induction false} SplitJoin(parts: seq<string>, sep: char)
    requires |parts| >= 1
    requires forall k :: 0 <= k < |parts| ==> sep !in parts[k]
    ensures Split(Join(parts, sep), sep) == parts
    decreases |parts|
  {
    if |parts| == 1 {
      SplitPrefix(parts[0], "", sep);
      assert parts[0] + "" == parts[0];
    } else {
      var tail := Join(parts[1..], sep);
      SplitJoin(parts[1..], sep);
      assert ([sep] + tail)[1..] == tail;
      assert Split([sep] + tail, sep) == [""] + parts[1..];
      assert Join(parts, sep) == parts[0] + ([sep] + tail);
      SplitPrefix(parts[0], [sep] + tail, sep);
      assert parts[0] + "" == parts[0];
      assert ([""] + parts[1..])[1..] == parts[1..];
      assert parts == [parts[0]] + parts[1..];
    }
  }

  /** The number of occurrences of `c` in `s`. */
  function Count(s: string, c: char): nat
    decreases |s|
  {
    if |s| == 0 then 0 else (if s[0] == c then 1 else 0) + Count(s[1..], c)
  }

  /** `s.split(c).length - 1` is the number of occurrences of `c`. */
  lemma {:induction false} SplitLength(s: string, c: char)
    ensures |Split(s, c)| == Count(s, c) + 1
    decreases |s|
  {
    if |s| > 0 {
      SplitLength(s[1..], c);
    }
  }

  /** `xs.filter(s => s)`: the non-empty strings of `xs`, in order. */
  function FilterNonEmpty(xs: seq<string>): (r: seq<string>)
    ensures forall k :: 0 <= k < |r| ==> r[k] != ""
    ensures forall x :: x in r <==> x in xs && x != ""
    ensures |r| <= |xs|
    decreases |xs|
  {
    if |xs| == 0 then []
    else if xs[0] == "" then FilterNonEmpty(xs[1..])
    else [xs[0]] + FilterNonEmpty(xs[1..])
  }

  /** The filter keeps the order: filtering a list in two parts is filtering each part. */
  lemma {:induction false} FilterNonEmptyAppend(a: seq<string>, b: seq<string>)
    ensures FilterNonEmpty(a + b) == FilterNonEmpty(a) + FilterNonEmpty(b)
    decreases |a|
  {
    if |a| > 0 {
      FilterNonEmptyAppend(a[1..], b);
      assert (a + b)[1..] == a[1..] + b;
    } else {
      assert a + b == b;
    }
  }

  /** Filtering keeps a list without empty strings as it is. */
  lemma {:induction false} FilterKeepsNonEmpty(xs: seq<string>)
    requires forall k :: 0 <= k < |xs| ==> xs[k] != ""
    ensures FilterNonEmpty(xs) == xs
    decreases |xs|
  {
    if |xs| > 0 {
      FilterKeepsNonEmpty(xs[1..]);
      assert xs == [xs[0]] + xs[1..];
    }
  }

  // ---------------------------------------------------------------------------
  // affixes, padding and case

  /** `s.endsWith(suffix)`. */
  predicate EndsWith(s: string, suffix: string) {
    |suffix| <= |s| && s[|s| - |suffix|..] == suffix
  }

  /** `c.repeat(n)` for one character. */
  function Repeat(c: char, n: nat): (r: string)
    ensures |r| == n && forall k :: 0 <= k < n ==> r[k] == c
  {
    seq(n, _ => c)
  }

  /** `s.padEnd(n)`: `s` followed by spaces up to length `n`; a longer `s` is kept whole. */
  function PadEnd(s: string, n: nat): (r: string)
    ensures |r| == if |s| >= n then |s| else n
    ensures r[..|s|] == s
    ensures forall k :: |s| <= k < |r| ==> r[k] == ' '
  {
    if |s| >= n then s else s + Repeat(' ', n - |s|)
  }

  function LowerChar(c: char): char {
    if 'A' <= c <= 'Z' then (c as int + 32) as char else c
  }

  function UpperChar(c: char): char {
    if 'a' <= c <= 'z' then (c as int - 32) as char else c
  }

  /** `s.toLowerCase()` restricted to ASCII letters. */
  function ToLower(s: string): (r: string)
    ensures |r| == |s| && forall k :: 0 <= k < |s| ==> r[k] == LowerChar(s[k])
  {
    seq(|s|, k requires 0 <= k < |s| => LowerChar(s[k]))
  }

  /** `s.toUpperCase()` restricted to ASCII letters. */
  function ToUpper(s: string): (r: string)
    ensures |r| == |s| && forall k :: 0 <= k < |s| ==> r[k] == UpperChar(s[k])
  {
    seq(|s|, k requires 0 <= k < |s| => UpperChar(s[k]))
  }

  /** A text upper-cases to a lower-case word's upper case exactly when it lower-cases to the word. */
  lemma SameWordAnyCase(s: string, word: string)
    requires forall k :: 0 <= k < |word| ==> 'a' <= word[k] <= 'z'
    ensures ToUpper(s) == ToUpper(word) <==> ToLower(s) == word
  {
    if |s| == |word| {
      if ToUpper(s) == ToUpper(word) {
        forall k | 0 <= k < |s| ensures ToLower(s)[k] == word[k] {
          assert UpperChar(s[k]) == UpperChar(word[k]);
        }
      }
      if ToLower(s) == word {
        forall k | 0 <= k < |s| ensures ToUpper(s)[k] == ToUpper(word)[k] {
          assert LowerChar(s[k]) == word[k];
        }
      }
    }
  }

  /** Lower-casing twice is lower-casing once. */
  lemma ToLowerIdempotent(s: string)
    ensures ToLower(ToLower(s)) == ToLower(s)
  {
  }

  /** Decimal notation of an integer, as a template literal prints it. */
  function NatToString(n: nat): (r: string)
    ensures |r| >= 1 && forall k :: 0 <= k < |r| ==> '0' <= r[k] <= '9'
    decreases n
  {
    var d := ['0' + (n % 10) as char];
    if n < 10 then d else NatToString(n / 10) + d
  }

  function IntToString(n: int): string {
    if n < 0 then "-" + NatToString(-n) else NatToString(n)
  }

  /** JavaScript truthiness of a possibly absent string: present and not empty. */
  predicate Truthy(o: Option<string>) {
    o.Some? && o.value != ""
  }

  /** `o || fallback` for a possibly absent string. */
  function OrElse(o: Option<string>, fallback: string): (r: string)
    ensures Truthy(o) ==> r == o.value
    ensures !Truthy(o) ==> r == fallback
  {
    if Truthy(o) then o.value else fallback
  }
}
