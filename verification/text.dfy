/** Character-level helpers shared by the parser: Python's whitespace class,
    `strip`/`rstrip`, the whitespace normaliser, `str.split(sep)` and
    `sep.join(...)`, substring search and decimal rendering of integers. */
module Text {

  /** Python's whitespace class: the code points for which `str.isspace()`
      holds, which are also exactly those matched by `\s` in a `str` pattern. */
  predicate IsSpace(c: char) {
    || ('\U{9}' <= c <= '\U{D}')
    || ('\U{1C}' <= c <= ' ')
    || c == '\U{85}' || c == '\U{A0}' || c == '\U{1680}'
    || ('\U{2000}' <= c <= '\U{200A}')
    || c == '\U{2028}' || c == '\U{2029}' || c == '\U{202F}' || c == '\U{205F}'
    || c == '\U{3000}'
  }

  /** End of the run of whitespace that starts at `i`. */
  function SkipSpace(s: string, i: nat): (j: nat)
    requires i <= |s|
    ensures i <= j <= |s|
    ensures forall k :: i <= k < j ==> IsSpace(s[k])
    ensures j == |s| || !IsSpace(s[j])
    decreases |s| - i
  {
    if i < |s| && IsSpace(s[i]) then SkipSpace(s, i + 1) else i
  }

  /** Start of the run of whitespace that ends at `n`. */
  function TrimEnd(s: string, n: nat): (m: nat)
    requires n <= |s|
    ensures m <= n
    ensures forall k :: m <= k < n ==> IsSpace(s[k])
    ensures m == 0 || !IsSpace(s[m - 1])
  {
    if n > 0 && IsSpace(s[n - 1]) then TrimEnd(s, n - 1) else n
  }

  /** Python's `s.rstrip()`. */
  function RStrip(s: string): (r: string)
    ensures |r| <= |s| && r == s[..|r|]
    ensures forall k :: |r| <= k < |s| ==> IsSpace(s[k])
    ensures r == [] || !IsSpace(r[|r| - 1])
  {
    s[..TrimEnd(s, |s|)]
  }

  /** Python's `s.strip()`: what is left of `s` after dropping its leading
      and trailing whitespace. */
  function Strip(s: string): (r: string)
    ensures SkipSpace(s, 0) + |r| <= |s|
    ensures r == s[SkipSpace(s, 0)..SkipSpace(s, 0) + |r|]
    ensures forall k :: SkipSpace(s, 0) + |r| <= k < |s| ==> IsSpace(s[k])
    ensures r == [] || (!IsSpace(r[0]) && !IsSpace(r[|r| - 1]))
    ensures (r == []) <==> AllSpace(s)
  {
    var i := SkipSpace(s, 0);
    var j := TrimEnd(s, |s|);
    if j <= i then
      []
    else
      assert !IsSpace(s[i]);
      s[i..j]
  }

  /** Every whitespace run of `s` replaced by one ordinary space
      (`re.sub(r"\s+", " ", s)`). */
  function Collapse(s: string): (r: string)
    ensures (r == []) <==> (s == [])
    ensures s != [] ==> (r[0] == ' ' <==> IsSpace(s[0]))
    ensures forall k :: 0 <= k < |r| && IsSpace(r[k]) ==> r[k] == ' '
    ensures forall k :: 0 < k < |r| && r[k] == ' ' ==> r[k - 1] != ' '
    decreases |s|
  {
    if s == [] then []
    else if IsSpace(s[0]) then [' '] + Collapse(s[SkipSpace(s, 0)..])
    else [s[0]] + Collapse(s[1..])
  }

  /** The shape `Collapse` produces: the only whitespace is the ordinary
      space, and never two in a row. */
  predicate IsCollapsed(s: string) {
    && (forall k :: 0 <= k < |s| && IsSpace(s[k]) ==> s[k] == ' ')
    && (forall k :: 0 < k < |s| && s[k] == ' ' ==> s[k - 1] != ' ')
  }

  /** A string the whitespace normaliser leaves as it is: collapsed, and no
      space at either end. */
  predicate IsNormal(s: string) {
    IsCollapsed(s) && (s != [] ==> s[0] != ' ' && s[|s| - 1] != ' ')
  }

  lemma CollapsedSlice(s: string, i: nat, j: nat)
    requires i <= j <= |s|
    requires IsCollapsed(s)
    ensures IsCollapsed(s[i..j])
  {
    var t := s[i..j];
    forall k | 0 < k < |t| && t[k] == ' '
      ensures t[k - 1] != ' '
    {
      assert t[k] == s[i + k] && t[k - 1] == s[i + k - 1];
    }
  }

  /** The parser's whitespace normaliser (`_normalize_space`): full-width
      spaces, tabs and every other whitespace run become one space, and the
      ends are stripped. */
  function Normalize(s: string): (r: string)
    ensures IsNormal(r)
    ensures (r == []) <==> AllSpace(s)
  {
    var c := Collapse(s);
    var r := Strip(c);
    CollapsedSlice(c, SkipSpace(c, 0), SkipSpace(c, 0) + |r|);
    CollapseAllSpace(s);
    r
  }

  /** No whitespace at either end. */
  predicate Trimmed(v: string) {
    v == [] || (!IsSpace(v[0]) && !IsSpace(v[|v| - 1]))
  }

  /** A string with no whitespace at either end is its own strip. */
  lemma StripTrimmed(v: string)
    requires v != [] && !IsSpace(v[0]) && !IsSpace(v[|v| - 1])
    ensures Strip(v) == v
  {
    assert SkipSpace(v, 0) == 0;
    assert TrimEnd(v, |v|) == |v|;
  }

  /** Every character of `s` is whitespace. */
  predicate AllSpace(s: string) {
    forall k :: 0 <= k < |s| ==> IsSpace(s[k])
  }

  lemma {:induction false} CollapseAllSpace(s: string)
    ensures AllSpace(Collapse(s)) <==> AllSpace(s)
    decreases |s|
  {
    if s == [] {
    } else if IsSpace(s[0]) {
      var j := SkipSpace(s, 0);
      var t := s[j..];
      var c := Collapse(t);
      CollapseAllSpace(t);
      assert Collapse(s) == [' '] + c;
      assert AllSpace(s) <==> AllSpace(t) by {
        if AllSpace(t) {
          // t starts with a non-space character, so it is empty here
          assert t == [];
        }
      }
      assert AllSpace([' '] + c) <==> AllSpace(c) by {
        if AllSpace(c) {
          // c starts with a non-space character unless it is empty
          assert c == [];
        }
        if AllSpace([' '] + c) {
          forall k | 0 <= k < |c| ensures IsSpace(c[k]) {
            assert ([' '] + c)[k + 1] == c[k];
          }
        }
      }
    } else {
      assert !IsSpace(Collapse(s)[0]);
    }
  }

  /** A normal string collapses to itself. */
  lemma {:induction false} CollapseNormal(s: string)
    requires forall k :: 0 <= k < |s| && IsSpace(s[k]) ==> s[k] == ' '
    requires forall k :: 0 < k < |s| && s[k] == ' ' ==> s[k - 1] != ' '
    ensures Collapse(s) == s
    decreases |s|
  {
    if s == [] {
    } else if IsSpace(s[0]) {
      assert SkipSpace(s, 0) == 1 by {
        if 1 < |s| {
          assert s[1] != ' ';
          assert !IsSpace(s[1]);
        }
      }
      CollapseNormal(s[1..]);
    } else {
      CollapseNormal(s[1..]);
    }
  }

  /** Normalising a normal string changes nothing. */
  lemma NormalizeFixesNormal(s: string)
    requires IsNormal(s)
    ensures Normalize(s) == s
  {
    CollapseNormal(s);
    if s != [] {
      assert SkipSpace(s, 0) == 0;
      assert TrimEnd(s, |s|) == |s|;
    }
  }

  /** `_normalize_space` is idempotent. */
  lemma NormalizeIdempotent(s: string)
    ensures Normalize(Normalize(s)) == Normalize(s)
  {
    NormalizeFixesNormal(Normalize(s));
  }

  /** Python's `s.split(sep)` for a one-character separator: the pieces
      between separators, empty pieces included. */
  function Split(s: string, sep: char): (r: seq<string>)
    ensures |r| >= 1
    ensures forall k :: 0 <= k < |r| ==> sep !in r[k]
    ensures |r[0]| <= |s| && r[0] == s[..|r[0]|]
    decreases |s|
  {
    if s == [] then [[]]
    else
      var rest := Split(s[1..], sep);
      if s[0] == sep then [[]] + rest
      else [[s[0]] + rest[0]] + rest[1..]
  }

  /** Python's `sep.join(parts)`. */
  function Join(parts: seq<string>, sep: string): string
    decreases |parts|
  {
    if parts == [] then []
    else if |parts| == 1 then parts[0]
    else parts[0] + sep + Join(parts[1..], sep)
  }

  /** Joining the pieces of a split restores the string. */
  lemma {:induction false} JoinSplit(s: string, sep: char)
    ensures Join(Split(s, sep), [sep]) == s
    decreases |s|
  {
    if s != [] {
      var rest := Split(s[1..], sep);
      JoinSplit(s[1..], sep);
      if s[0] != sep {
        if |rest| == 1 {
        } else {
          assert Join(rest, [sep]) == rest[0] + [sep] + Join(rest[1..], [sep]);
          assert rest[1..][1..] == rest[2..];
        }
      }
    }
  }

  /** Splitting a join of separator-free pieces gives the pieces back. */
  lemma {:induction false} SplitJoin(parts: seq<string>, sep: char)
    requires |parts| >= 1
    requires forall k :: 0 <= k < |parts| ==> sep !in parts[k]
    ensures Split(Join(parts, [sep]), sep) == parts
    decreases |parts|, |parts[0]|
  {
    if |parts| == 1 {
      SplitFree(parts[0], sep);
    } else if parts[0] == [] {
      var s := Join(parts, [sep]);
      assert s == [sep] + Join(parts[1..], [sep]);
      assert s[1..] == Join(parts[1..], [sep]);
      SplitJoin(parts[1..], sep);
    } else {
      var s := Join(parts, [sep]);
      var p0 := parts[0][1..];
      var parts' := [p0] + parts[1..];
      assert s == [parts[0][0]] + Join(parts', [sep]);
      assert s[1..] == Join(parts', [sep]);
      assert parts'[1..] == parts[1..];
      SplitJoin(parts', sep);
      assert [parts[0][0]] + p0 == parts[0];
    }
  }

  /** A join starts with its first piece and ends with its last. */
  lemma {:induction false} JoinEnds(parts: seq<string>, sep: string)
    requires |parts| >= 1
    ensures |Join(parts, sep)| >= |parts[0]| && Join(parts, sep)[..|parts[0]|] == parts[0]
    ensures |Join(parts, sep)| >= |parts[|parts| - 1]|
    ensures Join(parts, sep)[|Join(parts, sep)| - |parts[|parts| - 1]|..] == parts[|parts| - 1]
    decreases |parts|
  {
    if |parts| > 1 {
      var rest := Join(parts[1..], sep);
      JoinEnds(parts[1..], sep);
      var j := parts[0] + sep + rest;
      assert j[..|parts[0]|] == parts[0];
      assert j[|j| - |rest|..] == rest;
      assert parts[1..][|parts[1..]| - 1] == parts[|parts| - 1];
    }
  }

  /** A join reads back into its pieces when no piece is empty or holds the
      separator's first character. */
  lemma {:induction false} JoinInjective(ps: seq<string>, qs: seq<string>, sep: string)
    requires sep != []
    requires forall k :: 0 <= k < |ps| ==> ps[k] != [] && sep[0] !in ps[k]
    requires forall k :: 0 <= k < |qs| ==> qs[k] != [] && sep[0] !in qs[k]
    ensures Join(ps, sep) == Join(qs, sep) ==> ps == qs
    decreases |ps|
  {
    if Join(ps, sep) == Join(qs, sep) && ps != [] && qs != [] {
      var s := Join(ps, sep);
      var p, q := ps[0], qs[0];
      // the first piece ends at the first occurrence of `sep[0]`, or at the end
      var n := if |ps| > 1 then |p| else |s|;
      var m := if |qs| > 1 then |q| else |s|;
      assert n == |p| && m == |q| && (|ps| > 1 ==> s[n] == sep[0]) && (|qs| > 1 ==> s[m] == sep[0]) by {
        if |ps| > 1 {
          assert s == p + sep + Join(ps[1..], sep);
        } else {
          assert s == p;
        }
        if |qs| > 1 {
          assert s == q + sep + Join(qs[1..], sep);
        } else {
          assert s == q;
        }
      }
      assert n == m by {
        assert forall k :: 0 <= k < |p| ==> s[k] == p[k];
        assert forall k :: 0 <= k < |q| ==> s[k] == q[k];
      }
      if |ps| > 1 {
        assert |qs| > 1;
        assert s == p + sep + Join(ps[1..], sep) == q + sep + Join(qs[1..], sep);
        assert p == s[..|p|] == q;
        assert Join(ps[1..], sep) == s[|p| + |sep|..] == Join(qs[1..], sep);
        JoinInjective(ps[1..], qs[1..], sep);
        assert ps == [p] + ps[1..] && qs == [q] + qs[1..];
      } else {
        assert |qs| == 1;
        assert s == p && s == q;
      }
    }
  }

  /** A string without the separator splits into itself. */
  lemma {:induction false} SplitFree(s: string, sep: char)
    requires sep !in s
    ensures Split(s, sep) == [s]
    decreases |s|
  {
    if s != [] {
      SplitFree(s[1..], sep);
      assert [s[0]] + s[1..] == s;
    }
  }

  /** `sub` occurs in `s` at position `i`. */
  predicate OccursAt(s: string, sub: string, i: nat) {
    i + |sub| <= |s| && s[i..i + |sub|] == sub
  }

  /** Python's `sub in s`. */
  predicate Contains(s: string, sub: string) {
    exists i: nat :: i <= |s| && OccursAt(s, sub, i)
  }

  /** Every character of `r` is a decimal digit. */
  predicate AllDigits(r: string) {
    forall k :: 0 <= k < |r| ==> '0' <= r[k] <= '9'
  }

  /** The number a string of decimal digits denotes, read most significant
      digit first. */
  function DecimalValue(r: string): nat
    requires AllDigits(r)
    decreases |r|
  {
    if r == [] then 0
    else DecimalValue(r[..|r| - 1]) * 10 + (r[|r| - 1] as int - '0' as int)
  }

  /** The number a rendering with an optional leading minus sign denotes. */
  function SignedValue(r: string): int
    requires r != [] && (if r[0] == '-' then AllDigits(r[1..]) else AllDigits(r))
  {
    if r[0] == '-' then -(DecimalValue(r[1..]) as int) else DecimalValue(r)
  }

  /** Decimal rendering of a natural number. */
  function NatToString(n: nat): (r: string)
    ensures |r| >= 1
    ensures forall k :: 0 <= k < |r| ==> '0' <= r[k] <= '9'
    ensures DecimalValue(r) == n
    ensures r[0] == '0' ==> n == 0
  {
    if n < 10 then [Digit(n)]
    else
      var a := NatToString(n / 10);
      var r := a + [Digit(n % 10)];
      assert r[..|r| - 1] == a;
      r
  }

  function Digit(d: nat): (c: char)
    requires d < 10
    ensures '0' <= c <= '9'
    ensures c as int - '0' as int == d
  {
    "0123456789"[d]
  }

  /** Python's `str(n)` for an integer: digits, with a minus sign in front
      exactly when `n` is negative. */
  function IntToString(n: int): (r: string)
    ensures |r| >= 1
    ensures (r[0] == '-') <==> n < 0
    ensures forall k :: 0 < k < |r| ==> '0' <= r[k] <= '9'
    ensures forall k :: 0 <= k < |r| ==> r[k] == '-' || '0' <= r[k] <= '9'
    ensures SignedValue(r) == n
  {
    if n < 0 then
      var a := NatToString(-n);
      assert ("-" + a)[1..] == a;
      "-" + a
    else NatToString(n)
  }

  /** Distinct natural numbers have distinct decimal renderings. */
  lemma {:induction false} NatToStringInjective(m: nat, n: nat)
    ensures NatToString(m) == NatToString(n) ==> m == n
    decreases m
  {
    if NatToString(m) == NatToString(n) && m >= 10 && n >= 10 {
      var a := NatToString(m);
      assert a[|a| - 1] == Digit(m % 10) && a[..|a| - 1] == NatToString(m / 10);
      assert a[|a| - 1] == Digit(n % 10) && a[..|a| - 1] == NatToString(n / 10);
      NatToStringInjective(m / 10, n / 10);
    }
  }

  /** Distinct integers have distinct decimal renderings. */
  lemma IntToStringInjective(m: int, n: int)
    ensures IntToString(m) == IntToString(n) ==> m == n
  {
    if IntToString(m) == IntToString(n) && m < 0 && n < 0 {
      var a := IntToString(m);
      assert a == "-" + NatToString(-m) == "-" + NatToString(-n);
      assert a[1..] == NatToString(-m) == NatToString(-n);
      NatToStringInjective(-m, -n);
    } else if m >= 0 && n >= 0 {
      NatToStringInjective(m, n);
    }
  }

  /** `s` with every whitespace character removed: the part of a string the
      whitespace normaliser never touches. */
  function Squeeze(s: string): (r: string)
    decreases |s|
  {
    if s == [] then [] else (if IsSpace(s[0]) then [] else [s[0]]) + Squeeze(s[1..])
  }

  lemma {:induction false} SqueezeAppend(a: string, b: string)
    ensures Squeeze(a + b) == Squeeze(a) + Squeeze(b)
    decreases |a|
  {
    if a != [] {
      assert (a + b)[1..] == a[1..] + b;
      assert (a + b)[0] == a[0];
      SqueezeAppend(a[1..], b);
      var h := if IsSpace(a[0]) then [] else [a[0]];
      assert Squeeze(a + b) == h + Squeeze(a[1..] + b);
      assert Squeeze(a) == h + Squeeze(a[1..]);
    } else {
      assert a + b == b;
    }
  }

  lemma {:induction false} SqueezeAllSpace(a: string)
    requires AllSpace(a)
    ensures Squeeze(a) == []
    decreases |a|
  {
    if a != [] {
      SqueezeAllSpace(a[1..]);
    }
  }

  lemma {:induction false} SqueezeCollapse(s: string)
    ensures Squeeze(Collapse(s)) == Squeeze(s)
    decreases |s|
  {
    if s != [] {
      if IsSpace(s[0]) {
        var j := SkipSpace(s, 0);
        SqueezeCollapse(s[j..]);
        SqueezeAppend([' '], Collapse(s[j..]));
        assert s == s[..j] + s[j..];
        SqueezeAppend(s[..j], s[j..]);
        SqueezeAllSpace(s[..j]);
      } else {
        SqueezeCollapse(s[1..]);
        SqueezeAppend([s[0]], Collapse(s[1..]));
      }
    }
  }

  lemma SqueezeStrip(s: string)
    ensures Squeeze(Strip(s)) == Squeeze(s)
  {
    var i := SkipSpace(s, 0);
    var r := Strip(s);
    var j := i + |r|;
    StripPieces(s);
    SqueezeAppend(s[..i] + r, s[j..]);
    SqueezeAppend(s[..i], r);
    SqueezeAllSpace(s[..i]);
    SqueezeAllSpace(s[j..]);
  }

  /** A string is its leading whitespace, its strip, and its trailing
      whitespace. */
  lemma StripPieces(s: string)
    ensures var i := SkipSpace(s, 0); var j := i + |Strip(s)|;
      && s == s[..i] + Strip(s) + s[j..]
      && AllSpace(s[..i]) && AllSpace(s[j..])
  {
    var i := SkipSpace(s, 0);
    var j := i + |Strip(s)|;
    CutThree(s, i, j);
    assert AllSpace(s[..i]) by {
      forall k | 0 <= k < i ensures IsSpace(s[..i][k]) { assert s[..i][k] == s[k]; }
    }
    assert AllSpace(s[j..]) by {
      forall k | 0 <= k < |s| - j ensures IsSpace(s[j..][k]) { assert s[j..][k] == s[j + k]; }
    }
  }

  lemma CutThree(s: string, i: nat, j: nat)
    requires i <= j <= |s|
    ensures s == s[..i] + s[i..j] + s[j..]
  {
  }

  /** Normalising only ever touches whitespace. */
  lemma SqueezeNormalize(s: string)
    ensures Squeeze(Normalize(s)) == Squeeze(s)
  {
    SqueezeStrip(Collapse(s));
    SqueezeCollapse(s);
  }

  lemma {:induction false} InSqueeze(c: char, s: string)
    requires !IsSpace(c)
    ensures c in s <==> c in Squeeze(s)
    decreases |s|
  {
    if s != [] {
      InSqueeze(c, s[1..]);
      assert s == [s[0]] + s[1..];
    }
  }

  /** A character other than whitespace survives normalisation, and nothing
      else appears. */
  lemma NormalizeKeepsChar(c: char, s: string)
    requires !IsSpace(c)
    ensures c in Normalize(s) <==> c in s
  {
    SqueezeNormalize(s);
    InSqueeze(c, s);
    InSqueeze(c, Normalize(s));
  }

  /** A separator-free first word followed by the separator splits off as
      the first piece. */
  lemma SplitLeadingWord(x: char, rest: string, sep: char)
    requires x != sep
    ensures Split([x] + [sep] + rest, sep) == [[x]] + Split(rest, sep)
  {
    var s := [x] + [sep] + rest;
    assert s[1..] == [sep] + rest;
    assert s[1..][1..] == rest;
    var r1 := Split(s[1..], sep);
    assert s[1..] != [] && s[1..][0] == sep;
    assert r1 == [[]] + Split(rest, sep);
    assert s != [] && s[0] == x && s[0] != sep;
    assert Split(s, sep) == [[s[0]] + r1[0]] + r1[1..];
    assert [s[0]] + r1[0] == [x];
    assert r1[1..] == Split(rest, sep);
  }

  /** Every piece of a normal non-empty string split on spaces is a
      non-empty word without whitespace. */
  lemma {:induction false} NormalWords(t: string)
    requires IsNormal(t) && t != []
    ensures forall k :: 0 <= k < |Split(t, ' ')| ==> IsWord(Split(t, ' ')[k])
    decreases |t|
  {
    var t1 := t[1..];
    if t1 == [] {
      assert t == [t[0]];
      SplitFree(t, ' ');
    } else if t1[0] == ' ' {
      var t2 := t[2..];
      assert t == [t[0]] + [' '] + t2;
      SplitLeadingWord(t[0], t2, ' ');
      assert t2 != [] && t2[0] == t[2] && t[2] != ' ';
      CollapsedSlice(t, 2, |t|);
      NormalWords(t2);
      assert !IsSpace(t[0]);
    } else {
      CollapsedSlice(t, 1, |t|);
      NormalWords(t1);
      var r := Split(t1, ' ');
      assert Split(t, ' ') == [[t[0]] + r[0]] + r[1..];
      assert !IsSpace(t[0]);
      assert IsWord(r[0]);
      assert IsWord([t[0]] + r[0]);
    }
  }

  /** A non-empty run of characters none of which is whitespace. */
  predicate IsWord(w: string) {
    w != [] && forall k :: 0 <= k < |w| ==> !IsSpace(w[k])
  }

  /** In a normal string, the first space-delimited word is `[x]` exactly
      when the string is `[x]` or begins with `x` and a space. */
  lemma LeadingWord(t: string, x: char)
    requires IsNormal(t) && x != ' '
    ensures Split(t, ' ')[0] == [x] <==> (t == [x] || (|t| >= 2 && t[..2] == [x, ' ']))
  {
    var parts := Split(t, ' ');
    if t == [x] {
      SplitFree(t, ' ');
    } else if |t| >= 2 && t[..2] == [x, ' '] {
      LeadingWordRest(t, x);
    } else {
      JoinSplit(t, ' ');
    }
  }

  /** When a normal string begins with the word `[x]` and a space, the
      remaining words are those of the rest of the string, which is normal. */
  lemma LeadingWordRest(t: string, x: char)
    requires IsNormal(t) && x != ' '
    requires |t| >= 2 && t[..2] == [x, ' ']
    ensures Split(t, ' ') == [[x]] + Split(t[2..], ' ')
    ensures IsNormal(t[2..])
  {
    assert t == [x] + [' '] + t[2..];
    SplitLeadingWord(x, t[2..], ' ');
    CollapsedSlice(t, 2, |t|);
    assert t[1] == ' ';
  }
  /** The first word of the normalised text is the first run of characters
      that are not whitespace: leading whitespace is dropped, and the word
      ends at the next whitespace character or at the end. */
  lemma FirstWord(pre: string, w: string, rest: string)
    requires AllSpace(pre) && IsWord(w)
    requires rest == [] || IsSpace(rest[0])
    ensures Normalize(pre + w + rest) != []
    ensures Split(Normalize(pre + w + rest), ' ')[0] == w
  {
    var t := pre + w + rest;
    var lead := if pre == [] then [] else [' '];
    CollapseLead(pre, w, rest);
    assert Normalize(t) == Strip(Collapse(t));
    StripWordHead(Collapse(t), lead, w, Collapse(rest));
    SplitFirst(Normalize(t), ' ', |w|);
  }

  lemma CollapseLead(pre: string, w: string, rest: string)
    requires AllSpace(pre) && IsWord(w)
    ensures Collapse(pre + w + rest) == (if pre == [] then [] else [' ']) + w + Collapse(rest)
  {
    var t := w + rest;
    CollapseWord(w, rest);
    if pre == [] {
      assert pre + w + rest == t;
    } else {
      assert t[0] == w[0];
      assert pre + w + rest == pre + t;
      CollapseSpaces(pre, t);
    }
  }

  /** Stripping `lead + w + tail`, with at most one leading space and a tail
      that is empty or starts with a space, leaves `w` at the front, followed
      by the end or a space. */
  lemma StripWordHead(c: string, lead: string, w: string, tail: string)
    requires c == lead + w + tail && |lead| <= 1 && AllSpace(lead) && IsWord(w)
    requires tail == [] || tail[0] == ' '
    ensures |Strip(c)| >= |w| && Strip(c)[..|w|] == w
    ensures forall p :: 0 <= p < |w| ==> Strip(c)[p] != ' '
    ensures |Strip(c)| == |w| || Strip(c)[|w|] == ' '
  {
    var n := Strip(c);
    var i := SkipSpace(c, 0);
    assert c[|lead|] == w[0];
    assert i == |lead|;
    assert c[|lead| + |w| - 1] == w[|w| - 1];
    forall p | 0 <= p < |w| ensures n[p] == w[p] {
      assert n[p] == c[|lead| + p];
    }
    if |n| > |w| {
      assert n[|w|] == c[|lead| + |w|];
    }
  }

  /** Collapsing a word followed by anything keeps the word. */
  lemma {:induction false} CollapseWord(w: string, rest: string)
    requires IsWord(w)
    ensures Collapse(w + rest) == w + Collapse(rest)
    decreases |w|
  {
    var s := w + rest;
    assert s[0] == w[0] && s[1..] == w[1..] + rest;
    if |w| == 1 {
      assert w[1..] + rest == rest;
    } else {
      CollapseWord(w[1..], rest);
      assert w == [w[0]] + w[1..];
    }
  }

  /** A run of whitespace before a non-space character collapses to one
      space. */
  lemma CollapseSpaces(pre: string, x: string)
    requires pre != [] && AllSpace(pre)
    requires x == [] || !IsSpace(x[0])
    ensures Collapse(pre + x) == [' '] + Collapse(x)
  {
    var s := pre + x;
    var j := SkipSpace(s, 0);
    assert j >= |pre| by {
      forall k | 0 <= k < |pre| ensures IsSpace(s[k]) {
        assert s[k] == pre[k];
      }
    }
    assert j <= |pre| by {
      if x != [] {
        assert s[|pre|] == x[0];
      }
    }
    assert s[j..] == x;
  }

  /** Between two words, a whitespace run of any length and kind becomes
      exactly one ordinary space: normalising a word, some whitespace and a
      non-blank rest gives the word, one space and the rest normalised. */
  lemma NormalizeWordSep(w: string, sep: string, rest: string)
    requires IsWord(w) && sep != [] && AllSpace(sep) && !AllSpace(rest)
    ensures Normalize(w + sep + rest) == w + " " + Normalize(rest)
  {
    var i := SkipSpace(rest, 0);
    var x := rest[i..];
    var pre := sep + rest[..i];
    assert w + sep + rest == w + pre + x by {
      assert rest == rest[..i] + x;
    }
    CollapseWordSep(w, pre, x);
    var c := Collapse(x);
    StripFrontKept(w + " ", c);
    LeadSpaceFree(rest);
    assert Normalize(x) == Strip(c);
  }

  /** Collapsing a word, a whitespace run and a text that starts with a
      character that is not whitespace. */
  lemma CollapseWordSep(w: string, pre: string, x: string)
    requires IsWord(w) && pre != [] && AllSpace(pre)
    requires x != [] && !IsSpace(x[0])
    ensures Collapse(w + pre + x) == w + " " + Collapse(x)
    ensures Collapse(x) != [] && !IsSpace(Collapse(x)[0])
  {
    CollapseWord(w, pre + x);
    CollapseSpaces(pre, x);
    assert w + pre + x == w + (pre + x);
  }

  /** A string is its two halves around any cut. */
  lemma Rejoin(s: string, i: nat)
    requires i <= |s|
    ensures s[..i] + s[i..] == s
  {
  }

  /** Dropping the leading whitespace run does not change the normal form. */
  lemma LeadSpaceFree(s: string)
    requires !AllSpace(s)
    ensures SkipSpace(s, 0) < |s|
    ensures Normalize(s) == Normalize(s[SkipSpace(s, 0)..])
  {
    var i := SkipSpace(s, 0);
    var x := s[i..];
    if i > 0 {
      var pre := s[..i];
      Rejoin(s, i);
      assert AllSpace(pre) by {
        forall k | 0 <= k < |pre| ensures IsSpace(pre[k]) {
          assert pre[k] == s[k];
        }
      }
      assert x != [] && !IsSpace(x[0]);
      LeadSpaceNormalize(pre, x);
    }
  }

  /** Leading whitespace does not change the normal form. */
  lemma LeadSpaceNormalize(pre: string, x: string)
    requires pre != [] && AllSpace(pre) && x != [] && !IsSpace(x[0])
    ensures Normalize(pre + x) == Normalize(x)
  {
    CollapseSpaces(pre, x);
    var c := Collapse(x);
    StripLeadSpace(c);
    assert Normalize(pre + x) == Strip([' '] + c);
    assert Normalize(x) == Strip(c);
  }

  /** One leading space before a text that starts with a character that is
      not whitespace is stripped away. */
  lemma StripLeadSpace(c: string)
    requires c != [] && !IsSpace(c[0])
    ensures Strip([' '] + c) == Strip(c)
  {
    var s := [' '] + c;
    assert s[1] == c[0];
    assert SkipSpace(s, 1) == 1;
    assert SkipSpace(s, 0) == 1;
    assert SkipSpace(c, 0) == 0;
    TrimEndShift([' '], c, |c|);
    assert s[1..] == c;
  }

  /** Stripping `a + c`, where neither starts with whitespace, keeps `a`
      whole and strips only the end of `c`. */
  lemma StripFrontKept(a: string, c: string)
    requires a != [] && !IsSpace(a[0])
    requires c != [] && !IsSpace(c[0])
    ensures Strip(a + c) == a + Strip(c)
  {
    var s := a + c;
    assert s[0] == a[0];
    assert SkipSpace(s, 0) == 0;
    assert SkipSpace(c, 0) == 0;
    TrimEndShift(a, c, |c|);
    var j := TrimEnd(c, |c|);
    assert s[..|a| + j] == a + c[..j];
  }

  /** The trailing whitespace run of `a + c` lies inside `c` when `c` starts
      with a character that is not whitespace. */
  lemma {:induction false} TrimEndShift(a: string, c: string, n: nat)
    requires 1 <= n <= |c| && !IsSpace(c[0])
    ensures TrimEnd(a + c, |a| + n) == |a| + TrimEnd(c, n)
    decreases n
  {
    assert (a + c)[|a| + n - 1] == c[n - 1];
    if IsSpace(c[n - 1]) {
      TrimEndShift(a, c, n - 1);
    }
  }

  /** The first piece of a split ends at the first separator. */
  lemma {:induction false} SplitFirst(s: string, sep: char, n: nat)
    requires n <= |s|
    requires forall p :: 0 <= p < n ==> s[p] != sep
    requires n == |s| || s[n] == sep
    ensures Split(s, sep)[0] == s[..n]
    decreases n
  {
    if n > 0 {
      SplitFirst(s[1..], sep, n - 1);
      assert s[..n] == [s[0]] + s[1..][..n - 1];
    }
  }
}
