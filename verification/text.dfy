/** The string operations the components use: lower-casing for the skill
    search, substring search (`String.prototype.includes`), replacement of
    whitespace runs (`replace(/\s+/g, "_")`), the last segment of a split
    (`split(".").pop()`) and the `s || null` idiom. Characters are treated as
    ASCII: `Lower` folds only 'A'..'Z' and `IsWhitespace` knows only the ASCII
    white-space characters. */
module Text {
  import opened Wrappers

  predicate IsUpper(c: char) {
    'A' <= c <= 'Z'
  }

  /** 'A'..'Z' map to 'a'..'z', 32 code points further on; every other
      character is kept. */
  function LowerChar(c: char): (r: char)
    ensures !IsUpper(r)
    ensures !IsUpper(c) ==> r == c
    ensures IsUpper(c) ==> r as int == c as int + 32 && 'a' <= r <= 'z'
  {
    if IsUpper(c) then (c as int + 32) as char else c
  }

  /** ASCII lower-casing, character by character. */
  function Lower(s: string): (r: string)
    ensures |r| == |s|
    ensures forall i :: 0 <= i < |r| ==> !IsUpper(r[i])
    ensures forall i :: 0 <= i < |s| && !IsUpper(s[i]) ==> r[i] == s[i]
    ensures forall i :: 0 <= i < |s| && IsUpper(s[i]) ==> r[i] as int == s[i] as int + 32
  {
    seq(|s|, i requires 0 <= i < |s| => LowerChar(s[i]))
  }

  lemma LowerIdempotent(s: string)
    ensures Lower(Lower(s)) == Lower(s)
  {
  }

  predicate StartsWith(s: string, prefix: string) {
    |prefix| <= |s| && s[..|prefix|] == prefix
  }

  /** `sub` occurs in `s` (JavaScript's `s.includes(sub)`). */
  predicate Contains(s: string, sub: string)
    decreases |s|
  {
    StartsWith(s, sub) || (s != [] && Contains(s[1..], sub))
  }

  /** `sub` occurs in `s` starting at index `i`. */
  predicate OccursAt(s: string, sub: string, i: nat) {
    i + |sub| <= |s| && s[i..i + |sub|] == sub
  }

  lemma {:induction false} OccursAtContains(s: string, sub: string, i: nat)
    requires OccursAt(s, sub, i)
    ensures Contains(s, sub)
    decreases i
  {
    if i == 0 {
      assert StartsWith(s, sub);
    } else {
      assert s[1..][i - 1..i - 1 + |sub|] == s[i..i + |sub|];
      OccursAtContains(s[1..], sub, i - 1);
    }
  }

  lemma {:induction false} ContainsOccurs(s: string, sub: string) returns (i: nat)
    requires Contains(s, sub)
    ensures OccursAt(s, sub, i)
    decreases |s|
  {
    if StartsWith(s, sub) {
      i := 0;
    } else {
      var j := ContainsOccurs(s[1..], sub);
      assert s[1..][j..j + |sub|] == s[j + 1..j + 1 + |sub|];
      i := j + 1;
    }
  }

  /** `Contains` is substring search: it holds exactly when `sub` sits at
      some index of `s`. */
  lemma ContainsIff(s: string, sub: string)
    ensures Contains(s, sub) <==> exists i: nat :: OccursAt(s, sub, i)
  {
    if Contains(s, sub) {
      var i := ContainsOccurs(s, sub);
    }
    forall i: nat | OccursAt(s, sub, i)
      ensures Contains(s, sub)
    {
      OccursAtContains(s, sub, i);
    }
  }

  /** The ASCII characters JavaScript's `\s` matches: space, tab, line feed,
      vertical tab, form feed and carriage return. */
  predicate IsWhitespace(c: char) {
    c == ' ' || c == '\t' || c == '\n' || c == '\r' || c as int == 0x0B || c as int == 0x0C
  }

  /** No character of `s` is whitespace. */
  predicate HasNoWhitespace(s: string)
    decreases |s|
  {
    s == [] || (!IsWhitespace(s[0]) && HasNoWhitespace(s[1..]))
  }

  /** Every character of `s` is whitespace. */
  predicate AllWhitespace(s: string)
    decreases |s|
  {
    s == [] || (IsWhitespace(s[0]) && AllWhitespace(s[1..]))
  }

  lemma {:induction false} AllWhitespaceLast(s: string)
    requires s != [] && AllWhitespace(s)
    ensures IsWhitespace(s[|s| - 1])
    decreases |s|
  {
    if |s| > 1 {
      AllWhitespaceLast(s[1..]);
    }
  }

  /** `s` without its leading run of whitespace. */
  function SkipWhitespace(s: string): (r: string)
    ensures |r| <= |s|
    ensures r == [] || !IsWhitespace(r[0])
    decreases |s|
  {
    if s != [] && IsWhitespace(s[0]) then SkipWhitespace(s[1..]) else s
  }

  /** What is left after skipping is a suffix of `s`: it ends where `s`
      ends. */
  lemma {:induction false} SkipWhitespaceSuffix(s: string)
    ensures SkipWhitespace(s) == s[|s| - |SkipWhitespace(s)|..]
    decreases |s|
  {
    if s != [] && IsWhitespace(s[0]) {
      SkipWhitespaceSuffix(s[1..]);
    }
  }

  /** Nothing is left after skipping exactly when all of `s` is whitespace. */
  lemma {:induction false} SkipWhitespaceEmpty(s: string)
    ensures SkipWhitespace(s) == [] <==> AllWhitespace(s)
    decreases |s|
  {
    if s != [] && IsWhitespace(s[0]) {
      SkipWhitespaceEmpty(s[1..]);
    }
  }

  /** `s.replace(/\s+/g, "_")`: every maximal run of whitespace becomes a
      single underscore; every other character is kept in place. */
  function CollapseWhitespace(s: string): (r: string)
    ensures HasNoWhitespace(r)
    ensures |r| <= |s|
    decreases |s|
  {
    if s == [] then []
    else if IsWhitespace(s[0]) then "_" + CollapseWhitespace(SkipWhitespace(s))
    else [s[0]] + CollapseWhitespace(s[1..])
  }

  /** Text without whitespace is left as it is. */
  lemma {:induction false} CollapseWithoutWhitespace(s: string)
    requires HasNoWhitespace(s)
    ensures CollapseWhitespace(s) == s
    decreases |s|
  {
    if s != [] {
      CollapseWithoutWhitespace(s[1..]);
      assert [s[0]] + s[1..] == s;
    }
  }

  /** Skipping the leading run of `a + b` when it ends inside `a`. */
  lemma {:induction false} SkipWhitespaceAppendInside(a: string, b: string)
    requires SkipWhitespace(a) != []
    ensures SkipWhitespace(a + b) == SkipWhitespace(a) + b
    decreases |a|
  {
    if IsWhitespace(a[0]) {
      assert (a + b)[0] == a[0];
      assert (a + b)[1..] == a[1..] + b;
      SkipWhitespaceAppendInside(a[1..], b);
    }
  }

  /** Skipping the leading run of `a + b` when all of `a` is whitespace and
      `b` does not continue the run. */
  lemma {:induction false} SkipWhitespaceAppendPast(a: string, b: string)
    requires SkipWhitespace(a) == []
    requires b == [] || !IsWhitespace(b[0])
    ensures SkipWhitespace(a + b) == b
    decreases |a|
  {
    if a == [] {
      assert a + b == b;
    } else {
      assert (a + b)[0] == a[0];
      assert (a + b)[1..] == a[1..] + b;
      SkipWhitespaceAppendPast(a[1..], b);
    }
  }

  /** Replacement works piecewise on any split that does not cut through a
      run of whitespace. */
  lemma {:induction false} CollapseAppend(a: string, b: string)
    requires a == [] || b == [] || !IsWhitespace(a[|a| - 1]) || !IsWhitespace(b[0])
    ensures CollapseWhitespace(a + b) == CollapseWhitespace(a) + CollapseWhitespace(b)
    decreases |a|
  {
    if a == [] {
      assert a + b == b;
    } else if !IsWhitespace(a[0]) {
      assert (a + b)[1..] == a[1..] + b;
      CollapseAppend(a[1..], b);
    } else {
      CollapseAppendRun(a, b);
    }
  }

  /** The case of `CollapseAppend` where `a` starts with whitespace. */
  lemma {:induction false} CollapseAppendRun(a: string, b: string)
    requires a != [] && IsWhitespace(a[0])
    requires b == [] || !IsWhitespace(a[|a| - 1]) || !IsWhitespace(b[0])
    ensures CollapseWhitespace(a + b) == CollapseWhitespace(a) + CollapseWhitespace(b)
    decreases |a|, 0
  {
    var rest := SkipWhitespace(a);
    assert Whole: CollapseWhitespace(a + b) == "_" + CollapseWhitespace(SkipWhitespace(a + b)) by {
      assert (a + b)[0] == a[0];
    }
    if rest != [] {
      assert SkipWhitespace(a + b) == rest + b by {
        SkipWhitespaceAppendInside(a, b);
      }
      assert rest[|rest| - 1] == a[|a| - 1] by {
        SkipWhitespaceSuffix(a);
      }
      CollapseAppend(rest, b);
    } else {
      assert SkipWhitespace(a + b) == b by {
        SkipWhitespaceEmpty(a);
        AllWhitespaceLast(a);
        SkipWhitespaceAppendPast(a, b);
      }
    }
  }

  /** A non-empty run of whitespace alone becomes one underscore. */
  lemma CollapseAllWhitespace(w: string)
    requires w != [] && AllWhitespace(w)
    ensures CollapseWhitespace(w) == "_"
  {
    SkipWhitespaceEmpty(w);
  }

  /** A leading whitespace run becomes one underscore. */
  lemma CollapseLeadingRun(w: string, b: string)
    requires w != [] && AllWhitespace(w)
    requires b == [] || !IsWhitespace(b[0])
    ensures CollapseWhitespace(w + b) == "_" + CollapseWhitespace(b)
  {
    CollapseAllWhitespace(w);
    CollapseAppend(w, b);
  }

  /** A whitespace run between two non-whitespace neighbours becomes exactly
      one underscore. */
  lemma CollapseRun(a: string, w: string, b: string)
    requires w != [] && AllWhitespace(w)
    requires a == [] || !IsWhitespace(a[|a| - 1])
    requires b == [] || !IsWhitespace(b[0])
    ensures CollapseWhitespace(a + w + b) == CollapseWhitespace(a) + "_" + CollapseWhitespace(b)
  {
    var wb := w + b;
    var ca, cb := CollapseWhitespace(a), CollapseWhitespace(b);
    calc {
      CollapseWhitespace(a + w + b);
      { AppendAssociative(a, w, b); }
      CollapseWhitespace(a + wb);
      { assert wb[0] == w[0]; CollapseAppend(a, wb); }
      ca + CollapseWhitespace(wb);
      { CollapseLeadingRun(w, b); }
      ca + ("_" + cb);
      { AppendAssociative(ca, "_", cb); }
      ca + "_" + cb;
    }
  }

  lemma AppendAssociative(x: string, y: string, z: string)
    ensures x + (y + z) == x + y + z
  {
  }

  /** `s.split(sep).pop()`: the text after the last `sep`, or all of `s` when
      it holds no `sep`. */
  function LastSegment(s: string, sep: char): (r: string)
    ensures sep !in r
    ensures |r| <= |s| && r == s[|s| - |r|..]
    ensures |r| == |s| || s[|s| - |r| - 1] == sep
    decreases |s|
  {
    if s == [] then []
    else if s[|s| - 1] == sep then []
    else LastSegment(s[..|s| - 1], sep) + [s[|s| - 1]]
  }

  /** The three properties of `LastSegment` single its result out: any
      separator-free suffix that is either all of `s` or preceded by a
      separator is the last segment. */
  lemma LastSegmentUnique(s: string, sep: char, r: string)
    requires sep !in r
    requires |r| <= |s| && r == s[|s| - |r|..]
    requires |r| == |s| || s[|s| - |r| - 1] == sep
    ensures r == LastSegment(s, sep)
  {
  }

  /** The segment after a final separator is recovered exactly. */
  lemma LastSegmentAfter(a: string, sep: char, b: string)
    requires sep !in b
    ensures LastSegment(a + [sep] + b, sep) == b
  {
    var s := a + [sep] + b;
    assert s[|s| - |b|..] == b;
    assert s[|s| - |b| - 1] == sep;
    LastSegmentUnique(s, sep, b);
  }

  /** `s || null` on a string: the empty string becomes null. */
  function NullIfEmpty(s: string): (r: Option<string>)
    ensures r == None <==> s == ""
    ensures r.Some? ==> r.value == s
  {
    if s == "" then None else Some(s)
  }
}
