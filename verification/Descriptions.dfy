/** Cleaning provider descriptions: tags, entities, source attribution, blank lines. */
module Descriptions {
  import opened Prelude
  import UrlText

  // ── Building blocks ─────────────────────────────────────────────────────

  /** Replace every leftmost non-overlapping occurrence. */
  function Replace(s: string, pattern: string, text: string): string
    requires pattern != ""
    decreases |s|
  {
    if s == "" then ""
    else if StartsWith(s, pattern) then text + Replace(s[|pattern|..], pattern, text)
    else [s[0]] + Replace(s[1..], pattern, text)
  }

  datatype Rule = Rule(pattern: string, text: string)

  /** Line-break tags become newlines, one spelling after the other. */
  const BREAK_TAGS := [Rule("<br>", "\n"), Rule("<br/>", "\n"), Rule("<br />", "\n"),
                       Rule("<BR>", "\n"), Rule("<BR/>", "\n"), Rule("<BR />", "\n")]

  const ENTITIES := [Rule("&amp;", "&"), Rule("&lt;", "<"), Rule("&gt;", ">"), Rule("&quot;", "\""),
                     Rule("&#039;", "'"), Rule("&#39;", "'"), Rule("&apos;", "'"), Rule("&nbsp;", " ")]

  predicate Usable(rules: seq<Rule>) {
    forall i :: 0 <= i < |rules| ==> rules[i].pattern != ""
  }

  function ReplaceEach(s: string, rules: seq<Rule>): string
    requires Usable(rules)
    decreases |rules|
  {
    if rules == [] then s else ReplaceEach(Replace(s, rules[0].pattern, rules[0].text), rules[1..])
  }

  /** Everything between angle brackets is discarded; a `>` outside a tag is text. */
  function StripTags(s: string, inTag: bool): string {
    if s == "" then ""
    else if s[0] == '<' then StripTags(s[1..], true)
    else if s[0] == '>' && inTag then StripTags(s[1..], false)
    else if inTag then StripTags(s[1..], inTag)
    else [s[0]] + StripTags(s[1..], inTag)
  }

  const SOURCE := "(source"

  predicate SourceAt(s: string, i: nat) {
    i + |SOURCE| <= |s| && forall j :: 0 <= j < |SOURCE| ==> Lower(s[i + j]) == SOURCE[j]
  }

  /** A `(source` whose rest of the text is one line of at most 200 bytes. */
  predicate Attribution(s: string, i: nat) {
    SourceAt(s, i) && |UrlText.Utf8All(s[i..])| <= 200 && '\n' !in s[i..]
  }

  /** The last attribution that starts before `n`. */
  function FindBefore(s: string, n: nat): (r: Option<nat>)
    ensures r.Some? ==> r.value < n && Attribution(s, r.value)
                        && forall j :: r.value < j < n ==> !Attribution(s, j)
    ensures r.None? ==> forall j :: 0 <= j < n ==> !Attribution(s, j)
  {
    if n == 0 then None else if Attribution(s, n - 1) then Some(n - 1) else FindBefore(s, n - 1)
  }

  function Truncated(s: string): string {
    match FindBefore(s, |s|) case Some(i) => s[..i] case None => s
  }

  function LeadingBreaks(s: string): (k: nat)
    ensures k <= |s| && forall i :: 0 <= i < k ==> s[i] == '\n'
    ensures k < |s| ==> s[k] != '\n'
  {
    if s != "" && s[0] == '\n' then 1 + LeadingBreaks(s[1..]) else 0
  }

  function Breaks(n: nat): (s: string)
    ensures |s| == n && forall i :: 0 <= i < n ==> s[i] == '\n'
  {
    seq(n, _ => '\n')
  }

  /** The reference for blank lines: every maximal run of k newlines becomes min(k, 2). */
  function Collapsed(s: string): string
    decreases |s|
  {
    if s == "" then ""
    else if s[0] == '\n' then Breaks(Min(LeadingBreaks(s), 2)) + Collapsed(s[LeadingBreaks(s)..])
    else [s[0]] + Collapsed(s[1..])
  }

  /** The text before its blank lines are collapsed. */
  function Body(s: string): string {
    Truncated(ReplaceEach(StripTags(ReplaceEach(s, BREAK_TAGS), false), ENTITIES))
  }

  function Cleaned(s: string): string {
    Trim(Collapsed(Body(s)))
  }

  // ── The methods ─────────────────────────────────────────────────────────

  method ApplyRules(s: string, rules: seq<Rule>) returns (out: string)
    requires Usable(rules)
    ensures out == ReplaceEach(s, rules)
  {
    out := s;
    for i := 0 to |rules|
      invariant ReplaceEach(s, rules) == ReplaceEach(out, rules[i..])
    {
      assert rules[i..][1..] == rules[i + 1..];
      out := Replace(out, rules[i].pattern, rules[i].text);
    }
  }

  method DropTags(s: string) returns (buffer: string)
    ensures buffer == StripTags(s, false)
  {
    buffer := "";
    var inTag := false;
    for i := 0 to |s|
      invariant StripTags(s, false) == buffer + StripTags(s[i..], inTag)
    {
      assert s[i..][1..] == s[i + 1..];
      if s[i] == '<' {
        inTag := true;
      } else if s[i] == '>' && inTag {
        inTag := false;
      } else if !inTag {
        buffer := buffer + [s[i]];
      }
    }
  }

  /** `find_trailing_source_attribution`, walking right to left. */
  method FindTrailingSource(s: string) returns (r: Option<nat>)
    ensures r == FindBefore(s, |s|)
  {
    if |s| < |SOURCE| {
      return None;
    }
    NoSourceInTail(s);
    for i := |s| - |SOURCE| + 1 downto 0
      invariant FindBefore(s, |s|) == FindBefore(s, i)
    {
      FindStep(s, i);
      if SourceAt(s, i) {
        var rest := s[i..];
        if |UrlText.Utf8All(rest)| <= 200 && '\n' !in rest {
          return Some(i);
        }
      }
    }
    return None;
  }

  lemma FindStep(s: string, i: nat)
    requires i < |s|
    ensures FindBefore(s, i + 1) == if Attribution(s, i) then Some(i) else FindBefore(s, i)
  {
  }

  lemma NoSourceInTail(s: string)
    requires |SOURCE| <= |s|
    ensures FindBefore(s, |s|) == FindBefore(s, |s| - |SOURCE| + 1)
  {
  }

  predicate TripleAt(s: string, k: nat) {
    k + 3 <= |s| && s[k] == '\n' && s[k + 1] == '\n' && s[k + 2] == '\n'
  }

  predicate HasTriple(s: string) {
    exists k :: 0 <= k < |s| && TripleAt(s, k)
  }

  /** The repeated replacement of three newlines by two ends, and is exact. */
  method CollapseNewlines(s: string) returns (out: string)
    ensures out == Collapsed(s)
  {
    out := s;
    while HasTriple(out)
      invariant Collapsed(out) == Collapsed(s)
      decreases |out|
    {
      ReplaceKeepsCollapsed(out);
      ReplaceShortens(out);
      out := Replace(out, "\n\n\n", "\n\n");
    }
    CollapsedOfFlat(out);
  }

  /** `clean_description` */
  method CleanDescription(s: string) returns (out: string)
    ensures out == Cleaned(s)
  {
    out := ApplyRules(s, BREAK_TAGS);
    out := DropTags(out);
    out := ApplyRules(out, ENTITIES);
    var source := FindTrailingSource(out);
    if source.Some? {
      out := out[..source.value];
    }
    out := CollapseNewlines(out);
    out := Trim(out);
  }

  // ── Newlines ────────────────────────────────────────────────────────────

  /** Copying with at most two newlines in a row, `n` of which have just been copied. */
  function Copy(s: string, n: nat): string
    requires n <= 2
  {
    if s == "" then ""
    else if s[0] == '\n' then (if n < 2 then "\n" + Copy(s[1..], n + 1) else Copy(s[1..], 2))
    else [s[0]] + Copy(s[1..], 0)
  }

  lemma {:induction false} CopyBreaks(k: nat, t: string, n: nat)
    requires n <= 2
    ensures Copy(Breaks(k) + t, n) == Breaks(Min(k, 2 - n)) + Copy(t, Min(2, n + k))
  {
    if k == 0 {
      assert Breaks(0) + t == t && Breaks(0) + Copy(t, n) == Copy(t, n);
    } else {
      CopyBreaks(k - 1, t, Min(2, n + 1));
      CopyOneBreak(k, t, n);
      if n < 2 {
        OneMoreBreak(Min(k - 1, 1 - n), Copy(t, Min(2, n + k)));
      }
    }
  }

  lemma CopyOneBreak(k: nat, t: string, n: nat)
    requires 0 < k && n <= 2
    ensures var rest := Copy(Breaks(k - 1) + t, Min(2, n + 1));
            Copy(Breaks(k) + t, n) == if n < 2 then "\n" + rest else rest
  {
    var s := Breaks(k) + t;
    assert s[0] == '\n' && s[1..] == Breaks(k - 1) + t;
  }

  lemma OneMoreBreak(k: nat, t: string)
    ensures "\n" + (Breaks(k) + t) == Breaks(k + 1) + t
  {
    assert "\n" + Breaks(k) == Breaks(k + 1);
    assert "\n" + (Breaks(k) + t) == ("\n" + Breaks(k)) + t;
  }

  /** Copying with the counter is collapsing every run. */
  lemma {:induction false} CopyIsCollapse(s: string)
    ensures Copy(s, 0) == Collapsed(s)
    decreases |s|
  {
    if s != "" {
      if s[0] == '\n' {
        var k := LeadingBreaks(s);
        assert s == Breaks(k) + s[k..];
        CopyBreaks(k, s[k..], 0);
        CopyIsCollapse(s[k..]);
        assert Copy(s[k..], Min(2, k)) == Copy(s[k..], 0);
      } else {
        CopyIsCollapse(s[1..]);
      }
    }
  }

  lemma TripleStarts(s: string)
    ensures StartsWith(s, "\n\n\n") <==> TripleAt(s, 0)
  {
  }

  lemma {:induction false} CopyOfReplaced(s: string, n: nat)
    requires n <= 2
    ensures Copy(Replace(s, "\n\n\n", "\n\n"), n) == Copy(s, n)
    decreases |s|
  {
    if s != "" {
      TripleStarts(s);
      var r := Replace(s, "\n\n\n", "\n\n");
      if StartsWith(s, "\n\n\n") {
        var rest := Replace(s[3..], "\n\n\n", "\n\n");
        CopyOfReplaced(s[3..], 2);
        assert s == Breaks(3) + s[3..] && r == Breaks(2) + rest;
        CopyBreaks(3, s[3..], n);
        CopyBreaks(2, rest, n);
      } else {
        assert r[0] == s[0] && r[1..] == Replace(s[1..], "\n\n\n", "\n\n");
        CopyOfReplaced(s[1..], if s[0] == '\n' then Min(2, n + 1) else 0);
      }
    }
  }

  lemma ReplaceKeepsCollapsed(s: string)
    ensures Collapsed(Replace(s, "\n\n\n", "\n\n")) == Collapsed(s)
  {
    var r := Replace(s, "\n\n\n", "\n\n");
    CopyIsCollapse(s);
    CopyIsCollapse(r);
    CopyOfReplaced(s, 0);
  }

  lemma {:induction false} ReplaceShortens(s: string)
    ensures |Replace(s, "\n\n\n", "\n\n")| <= |s|
    ensures HasTriple(s) ==> |Replace(s, "\n\n\n", "\n\n")| < |s|
    decreases |s|
  {
    if s != "" {
      TripleStarts(s);
      if StartsWith(s, "\n\n\n") {
        ReplaceShortens(s[3..]);
      } else {
        ReplaceShortens(s[1..]);
        if HasTriple(s) {
          var k :| 0 <= k < |s| && TripleAt(s, k);
          assert k > 0 && TripleAt(s[1..], k - 1);
        }
      }
    }
  }

  lemma {:induction false} CollapsedOfFlat(s: string)
    requires !HasTriple(s)
    ensures Collapsed(s) == s
    decreases |s|
  {
    if s != "" {
      var k := if s[0] == '\n' then LeadingBreaks(s) else 1;
      assert k <= 2 by {
        assert !TripleAt(s, 0);
      }
      assert !HasTriple(s[k..]) by {
        forall j | 0 <= j < |s[k..]|
          ensures !TripleAt(s[k..], j)
        {
          assert !TripleAt(s, k + j);
        }
      }
      CollapsedOfFlat(s[k..]);
      assert s == s[..k] + s[k..];
    }
  }

  lemma {:induction false} CollapsedHasNoTriple(s: string)
    ensures !HasTriple(Collapsed(s))
    ensures s == "" || s[0] != '\n' ==> Collapsed(s) == "" || Collapsed(s)[0] != '\n'
    decreases |s|
  {
    if s != "" {
      var k := if s[0] == '\n' then LeadingBreaks(s) else 1;
      CollapsedHasNoTriple(s[k..]);
      var rest, c := Collapsed(s[k..]), Collapsed(s);
      var m := if s[0] == '\n' then Min(k, 2) else 1;
      assert c[m..] == rest;
      forall j | 0 <= j < |c|
        ensures !TripleAt(c, j)
      {
        if j >= m {
          assert !TripleAt(rest, j - m);
        } else if s[0] == '\n' && m < |c| {
          assert c[m] == rest[0];
        }
      }
    }
  }

  /** A run of newlines between other text, or at an end, is cut to two; a shorter one stays. */
  lemma {:induction false} RunsAreCut(a: string, k: nat, b: string)
    requires '\n' !in a && (b == "" || b[0] != '\n')
    ensures Collapsed(a + (Breaks(k) + b)) == a + (Breaks(if k <= 2 then k else 2) + Collapsed(b))
  {
    if a == "" {
      RunInFront(k, b);
      assert a + (Breaks(k) + b) == Breaks(k) + b;
    } else {
      var s := a + (Breaks(k) + b);
      assert s[0] == a[0] && s[1..] == a[1..] + (Breaks(k) + b);
      RunsAreCut(a[1..], k, b);
      assert a == [a[0]] + a[1..];
    }
  }

  lemma RunInFront(k: nat, b: string)
    requires b == "" || b[0] != '\n'
    ensures Collapsed(Breaks(k) + b) == Breaks(if k <= 2 then k else 2) + Collapsed(b)
  {
    CopyIsCollapse(Breaks(k) + b);
    CopyBreaks(k, b, 0);
    CopyIsCollapse(b);
    assert Copy(b, Min(2, k)) == Copy(b, 0);
  }

  lemma TripleMeans(t: string)
    ensures HasTriple(t) <==> exists k :: 0 <= k < |t| - 2 && t[k] == '\n' && t[k + 1] == '\n' && t[k + 2] == '\n'
  {
    if HasTriple(t) {
      var k :| 0 <= k < |t| && TripleAt(t, k);
      assert t[k] == '\n' && t[k + 1] == '\n' && t[k + 2] == '\n';
    }
    if k :| 0 <= k < |t| - 2 && t[k] == '\n' && t[k + 1] == '\n' && t[k + 2] == '\n' {
      assert TripleAt(t, k);
    }
  }

  /** The result of cleaning has no three consecutive newlines and nothing left to trim. */
  lemma CleanedIsTidy(s: string)
    ensures !HasTriple(Cleaned(s)) && Trimmed(Cleaned(s))
  {
    CollapsedHasNoTriple(Body(s));
    TrimKeepsFlat(Collapsed(Body(s)));
  }

  lemma TrimKeepsFlat(flat: string)
    requires !HasTriple(flat)
    ensures !HasTriple(Trim(flat)) && Trimmed(Trim(flat))
  {
    TrimIsSlice(flat);
    var i, j :| 0 <= i <= j <= |flat| && Trim(flat) == flat[i..j];
    forall k | 0 <= k < |Trim(flat)|
      ensures !TripleAt(Trim(flat), k)
    {
      assert !TripleAt(flat, i + k);
    }
  }

  // ── Source attribution ──────────────────────────────────────────────────

  lemma {:induction false} SuffixIsShorter(s: string, i: nat, j: nat)
    requires i <= j <= |s|
    ensures |UrlText.Utf8All(s[j..])| <= |UrlText.Utf8All(s[i..])|
    decreases j - i
  {
    if i < j {
      assert s[i..][1..] == s[i + 1..];
      SuffixIsShorter(s, i + 1, j);
    }
  }

  lemma LaterIsAttributionToo(s: string, a: nat, i: nat)
    requires a <= i && Attribution(s, a) && SourceAt(s, i)
    ensures Attribution(s, i)
  {
    SuffixIsShorter(s, a, i);
    forall k | 0 <= k < |s[i..]|
      ensures s[i..][k] != '\n'
    {
      assert s[a..][i - a + k] == s[i..][k];
    }
  }

  /** Only the last `(source` can be the attribution: if its rest is too long or wraps, so is the
      rest of every earlier one, and nothing is cut. */
  lemma LastOccurrenceDecides(s: string, i: nat)
    requires SourceAt(s, i) && forall j :: i < j < |s| ==> !SourceAt(s, j)
    ensures Truncated(s) == if Attribution(s, i) then s[..i] else s
  {
    forall a | 0 <= a <= i && Attribution(s, a)
      ensures Attribution(s, i)
    {
      LaterIsAttributionToo(s, a, i);
    }
  }

  // ── Tags ────────────────────────────────────────────────────────────────

  /** Inside a tag everything up to the next `>` is dropped. */
  lemma {:induction false} InsideTag(t: string, b: string)
    requires '>' !in t
    ensures StripTags(t, true) == ""
    ensures StripTags(t + ['>'] + b, true) == StripTags(b, false)
  {
    var s := t + ['>'] + b;
    if t == "" {
      assert s[1..] == b;
    } else {
      assert s[0] == t[0] && s[1..] == t[1..] + ['>'] + b;
      InsideTag(t[1..], b);
    }
  }

  /** A tag disappears and the text on both sides stays; after a `<` that no `>` follows nothing
      of the text is left. */
  lemma {:induction false} TagIsDropped(a: string, t: string, b: string)
    requires '<' !in a && '>' !in t
    ensures StripTags(a + ['<'] + t + ['>'] + b, false) == a + StripTags(b, false)
    ensures StripTags(a + ['<'] + t, false) == a
  {
    var s, open := a + ['<'] + t + ['>'] + b, a + ['<'] + t;
    if a == "" {
      assert s[1..] == t + ['>'] + b && open[1..] == t;
      InsideTag(t, b);
    } else {
      assert s[0] == open[0] == a[0];
      assert s[1..] == a[1..] + ['<'] + t + ['>'] + b && open[1..] == a[1..] + ['<'] + t;
      TagIsDropped(a[1..], t, b);
      assert a == [a[0]] + a[1..];
    }
  }

  // ── Clean text ──────────────────────────────────────────────────────────

  predicate Occurs(s: string, pattern: string) {
    exists i :: 0 <= i < |s| && StartsWith(s[i..], pattern)
  }

  lemma OccursFromNext(s: string, pattern: string)
    requires s != ""
    ensures Occurs(s, pattern) <==> StartsWith(s, pattern) || Occurs(s[1..], pattern)
  {
    assert s[0..] == s;
    assert forall i :: 0 < i < |s| ==> s[i..] == s[1..][i - 1..];
    if Occurs(s[1..], pattern) {
      var i :| 0 <= i < |s[1..]| && StartsWith(s[1..][i..], pattern);
      assert s[i + 1..] == s[1..][i..];
    }
  }

  lemma {:induction false} ReplaceNeverGrows(s: string, pattern: string, text: string)
    requires |text| < |pattern|
    ensures |Replace(s, pattern, text)| <= |s|
    decreases |s|
  {
    if s != "" {
      if StartsWith(s, pattern) {
        ReplaceNeverGrows(s[|pattern|..], pattern, text);
      } else {
        ReplaceNeverGrows(s[1..], pattern, text);
      }
    }
  }

  /** Replacing by something shorter either finds nothing and changes nothing, or shortens the text. */
  lemma {:induction false} ReplaceChangesExactlyWhen(s: string, pattern: string, text: string)
    requires |text| < |pattern|
    ensures Occurs(s, pattern) ==> |Replace(s, pattern, text)| < |s|
    ensures !Occurs(s, pattern) ==> Replace(s, pattern, text) == s
    decreases |s|
  {
    if s != "" {
      OccursFromNext(s, pattern);
      if StartsWith(s, pattern) {
        ReplaceNeverGrows(s[|pattern|..], pattern, text);
      } else {
        ReplaceChangesExactlyWhen(s[1..], pattern, text);
      }
    }
  }

  predicate Shortening(rules: seq<Rule>) {
    forall i :: 0 <= i < |rules| ==> |rules[i].text| < |rules[i].pattern|
  }

  predicate NoneOccurs(s: string, rules: seq<Rule>) {
    forall i :: 0 <= i < |rules| ==> !Occurs(s, rules[i].pattern)
  }

  lemma {:induction false} RulesChangeExactlyWhen(s: string, rules: seq<Rule>)
    requires Shortening(rules)
    ensures Usable(rules)
    ensures |ReplaceEach(s, rules)| <= |s|
    ensures NoneOccurs(s, rules) ==> ReplaceEach(s, rules) == s
    ensures !NoneOccurs(s, rules) ==> |ReplaceEach(s, rules)| < |s|
    decreases |rules|
  {
    if rules != [] {
      var next := Replace(s, rules[0].pattern, rules[0].text);
      ReplaceChangesExactlyWhen(s, rules[0].pattern, rules[0].text);
      RulesChangeExactlyWhen(next, rules[1..]);
      assert NoneOccurs(s, rules) <==> !Occurs(s, rules[0].pattern) && NoneOccurs(s, rules[1..]) by {
        assert forall i :: 0 < i < |rules| ==> rules[i] == rules[1..][i - 1];
        assert forall i :: 0 <= i < |rules[1..]| ==> rules[1..][i] == rules[i + 1];
      }
    }
  }

  lemma {:induction false} StripShortens(s: string, inTag: bool)
    ensures |StripTags(s, inTag)| <= |s|
    ensures '<' in s ==> |StripTags(s, inTag)| < |s|
  {
    if s != "" {
      StripShortens(s[1..], if s[0] == '<' then true else if s[0] == '>' then false else inTag);
    }
  }

  lemma {:induction false} StripNothing(s: string)
    requires '<' !in s
    ensures StripTags(s, false) == s
  {
    if s != "" {
      StripNothing(s[1..]);
    }
  }

  /** Exactly when stripping loses nothing: the text has no `<`, stray or not. */
  lemma StripUnchangedExactlyWhen(s: string)
    ensures StripTags(s, false) == s <==> '<' !in s
  {
    StripShortens(s, false);
    if '<' !in s {
      StripNothing(s);
    }
  }

  lemma {:induction false} CollapsedIsShorter(s: string)
    ensures |Collapsed(s)| <= |s|
    ensures HasTriple(s) ==> |Collapsed(s)| < |s|
    decreases |s|
  {
    if HasTriple(s) {
      var r := Replace(s, "\n\n\n", "\n\n");
      ReplaceKeepsCollapsed(s);
      ReplaceShortens(s);
      CollapsedIsShorter(r);
    } else {
      CollapsedOfFlat(s);
    }
  }

  lemma TrimChangesExactlyWhen(s: string)
    ensures |Trim(s)| <= |s|
    ensures Trimmed(s) ==> Trim(s) == s
    ensures !Trimmed(s) ==> |Trim(s)| < |s|
  {
    TrimIsSlice(s);
    var i, j :| 0 <= i <= j <= |s| && Trim(s) == s[i..j];
    if |Trim(s)| == |s| {
      assert s[i..j] == s;
    }
    if Trimmed(s) {
      TrimOfTrimmed(s);
    }
  }

  lemma RulesShorten()
    ensures Shortening(BREAK_TAGS) && Shortening(ENTITIES)
  {
  }

  lemma BreakTagsNeedAngle(s: string)
    ensures '<' !in s ==> NoneOccurs(s, BREAK_TAGS)
  {
    if '<' !in s {
      forall i, k | 0 <= i < |BREAK_TAGS| && 0 <= k < |s|
        ensures !StartsWith(s[k..], BREAK_TAGS[i].pattern)
      {
        StartsAlike(s[k..], BREAK_TAGS[i].pattern);
        assert BREAK_TAGS[i].pattern[0] == '<';
      }
    }
  }

  /** Nothing for any stage of the cleaning to do. */
  predicate Clean(s: string) {
    '<' !in s && NoneOccurs(s, ENTITIES) && FindBefore(s, |s|).None? && !HasTriple(s) && Trimmed(s)
  }

  /** Exactly which texts are returned as they are: those without `<`, without any of the eight
      entities, without an attribution, without three newlines in a row and with nothing to trim.
      Every stage shortens what it changes, so no stage can undo another. */
  lemma CleanTextIsUnchanged(s: string)
    ensures Cleaned(s) == s <==> Clean(s)
  {
    RulesShorten();
    RulesChangeExactlyWhen(s, BREAK_TAGS);
    var a := ReplaceEach(s, BREAK_TAGS);
    StripShortens(a, false);
    StripUnchangedExactlyWhen(a);
    var b := StripTags(a, false);
    RulesChangeExactlyWhen(b, ENTITIES);
    var c := ReplaceEach(b, ENTITIES);
    assert |Truncated(c)| <= |c| && (FindBefore(c, |c|).Some? ==> |Truncated(c)| < |c|);
    var d := Truncated(c);
    CollapsedIsShorter(d);
    CollapsedOfFlatOnly(d);
    TrimChangesExactlyWhen(Collapsed(d));
    BreakTagsNeedAngle(s);
  }

  lemma CollapsedOfFlatOnly(s: string)
    ensures !HasTriple(s) ==> Collapsed(s) == s
  {
    if !HasTriple(s) {
      CollapsedOfFlat(s);
    }
  }

  // ── The tables ──────────────────────────────────────────────────────────

  lemma {:induction false} ReplaceAbsent(s: string, pattern: string, text: string)
    requires pattern != "" && pattern[0] !in s
    ensures Replace(s, pattern, text) == s
    decreases |s|
  {
    if s != "" {
      StartsAlike(s, pattern);
      ReplaceAbsent(s[1..], pattern, text);
    }
  }

  lemma ReplaceAtHead(m: string, pattern: string, text: string)
    requires pattern != "" && m != "" && m[0] == pattern[0] && pattern[0] !in m[1..]
    ensures Replace(m, pattern, text) == if StartsWith(m, pattern) then text + m[|pattern|..] else m
  {
    if StartsWith(m, pattern) {
      var rest := m[|pattern|..];
      forall i | 0 <= i < |rest|
        ensures rest[i] != pattern[0]
      {
        assert rest[i] == m[1..][i + |pattern| - 1];
      }
      ReplaceAbsent(rest, pattern, text);
    } else {
      ReplaceAbsent(m[1..], pattern, text);
      assert m == [m[0]] + m[1..];
    }
  }

  /** Text without the pattern's first character in front of `m` is copied. */
  lemma {:induction false} ReplaceSkips(a: string, m: string, pattern: string, text: string)
    requires pattern != "" && pattern[0] !in a
    ensures Replace(a + m, pattern, text) == a + Replace(m, pattern, text)
    decreases |a|
  {
    if a == "" {
      assert a + m == m;
    } else {
      var s := a + m;
      StartsAlike(s, pattern);
      assert s[0] == a[0] && s[1..] == a[1..] + m;
      ReplaceSkips(a[1..], m, pattern, text);
      assert [a[0]] + (a[1..] + Replace(m, pattern, text)) == a + Replace(m, pattern, text);
    }
  }

  /** Replacing where the pattern can start at one place only. */
  lemma ReplaceAt(a: string, m: string, pattern: string, text: string)
    requires pattern != "" && m != "" && m[0] == pattern[0] && pattern[0] !in a && pattern[0] !in m[1..]
    ensures Replace(a + m, pattern, text) == a + if StartsWith(m, pattern) then text + m[|pattern|..] else m
  {
    ReplaceSkips(a, m, pattern, text);
    ReplaceAtHead(m, pattern, text);
  }

  predicate AllStartWith(rules: seq<Rule>, c: char) {
    forall i :: 0 <= i < |rules| ==> rules[i].pattern != "" && rules[i].pattern[0] == c
  }

  lemma {:induction false} ReplaceEachAbsent(s: string, rules: seq<Rule>, c: char)
    requires AllStartWith(rules, c) && c !in s
    ensures Usable(rules) && ReplaceEach(s, rules) == s
    decreases |rules|
  {
    if rules != [] {
      ReplaceAbsent(s, rules[0].pattern, rules[0].text);
      ReplaceEachAbsent(s, rules[1..], c);
    }
  }

  /** Where the only `c` of a text starts `m`, rules that begin with `c` and do not fit change nothing. */
  lemma {:induction false} NoRuleFits(rules: seq<Rule>, c: char, a: string, m: string)
    requires AllStartWith(rules, c) && c !in a && m != "" && m[0] == c && c !in m[1..]
    requires forall i :: 0 <= i < |rules| ==> !StartsWith(m, rules[i].pattern)
    ensures Usable(rules) && ReplaceEach(a + m, rules) == a + m
    decreases |rules|
  {
    if rules != [] {
      ReplaceAt(a, m, rules[0].pattern, rules[0].text);
      NoRuleFits(rules[1..], c, a, m);
    }
  }

  /** And the first rule that fits is applied; if it leaves no `c` that is the end of it. */
  lemma {:induction false} FirstRuleFits(rules: seq<Rule>, c: char, i: nat, a: string, m: string)
    requires AllStartWith(rules, c) && c !in a && m != "" && m[0] == c && c !in m[1..]
    requires i < |rules| && StartsWith(m, rules[i].pattern) && c !in rules[i].text
    requires forall j :: 0 <= j < i ==> !StartsWith(m, rules[j].pattern)
    ensures Usable(rules) && ReplaceEach(a + m, rules) == a + (rules[i].text + m[|rules[i].pattern|..])
    decreases |rules|
  {
    ReplaceAt(a, m, rules[0].pattern, rules[0].text);
    if i == 0 {
      var rest := m[|rules[0].pattern|..];
      forall k | 0 <= k < |rest|
        ensures rest[k] != c
      {
        assert rest[k] == m[1..][k + |rules[0].pattern| - 1];
      }
      ReplaceEachAbsent(a + (rules[0].text + rest), rules[1..], c);
    } else {
      FirstRuleFits(rules[1..], c, i - 1, a, m);
    }
  }

  lemma RulesStart()
    ensures AllStartWith(BREAK_TAGS, '<') && AllStartWith(ENTITIES, '&')
  {
  }

  lemma DiffersAt(m: string, pattern: string, k: nat)
    requires k < |pattern| && k < |m| && m[k] != pattern[k]
    ensures !StartsWith(m, pattern)
  {
  }

  /** One rule's pattern among plain text. */
  lemma OneRuleFits(rules: seq<Rule>, c: char, i: nat, a: string, b: string)
    requires AllStartWith(rules, c) && c !in a && c !in b && i < |rules|
    requires c !in rules[i].text && c !in rules[i].pattern[1..]
    requires forall j :: 0 <= j < i ==> !StartsWith(rules[i].pattern + b, rules[j].pattern)
    ensures Usable(rules) && ReplaceEach(a + (rules[i].pattern + b), rules) == a + (rules[i].text + b)
  {
    var p := rules[i].pattern;
    var m := p + b;
    assert m[..|p|] == p && m[|p|..] == b && m[1..] == p[1..] + b;
    FirstRuleFits(rules, c, i, a, m);
  }

  /** One entity among plain text, by its place in the table. */
  lemma OneEntity(a: string, i: nat, b: string)
    requires '&' !in a && '&' !in b && 0 < i < |ENTITIES|
    ensures ReplaceEach(a + (ENTITIES[i].pattern + b), ENTITIES) == a + (ENTITIES[i].text + b)
  {
    RulesStart();
    EntitiesDiffer(i, b);
    OneRuleFits(ENTITIES, '&', i, a, b);
  }

  lemma EntitiesDiffer(i: nat, b: string)
    requires 0 < i < |ENTITIES|
    ensures forall j :: 0 <= j < i ==> !StartsWith(ENTITIES[i].pattern + b, ENTITIES[j].pattern)
  {
    var m := ENTITIES[i].pattern + b;
    forall j | 0 <= j < i
      ensures !StartsWith(m, ENTITIES[j].pattern)
    {
      var k := if i == 6 && j == 0 then 2 else if i == 5 && j == 4 then 2 else 1;
      DiffersAt(m, ENTITIES[j].pattern, k);
    }
  }

  /** What the entities stand for; the quote has two numeric spellings. */
  lemma EntitiesStandFor(a: string, b: string)
    requires '&' !in a && '&' !in b
    ensures ReplaceEach(a + ("&lt;" + b), ENTITIES) == a + ("<" + b)
    ensures ReplaceEach(a + ("&gt;" + b), ENTITIES) == a + (">" + b)
    ensures ReplaceEach(a + ("&quot;" + b), ENTITIES) == a + ("\"" + b)
    ensures ReplaceEach(a + ("&#039;" + b), ENTITIES) == a + ("'" + b)
    ensures ReplaceEach(a + ("&#39;" + b), ENTITIES) == a + ("'" + b)
    ensures ReplaceEach(a + ("&apos;" + b), ENTITIES) == a + ("'" + b)
    ensures ReplaceEach(a + ("&nbsp;" + b), ENTITIES) == a + (" " + b)
  {
    OneEntity(a, 1, b);
    OneEntity(a, 2, b);
    OneEntity(a, 3, b);
    OneEntity(a, 4, b);
    OneEntity(a, 5, b);
    OneEntity(a, 6, b);
    OneEntity(a, 7, b);
  }

  /** The ampersand comes first, so an entity it completes is decoded as well; without one it stays. */
  lemma AmpersandComesFirst(a: string, b: string)
    requires '&' !in a && '&' !in b
    ensures ReplaceEach(a + ("&amp;" + b), ENTITIES) == ReplaceEach(a + ("&" + b), ENTITIES[1..])
  {
    var p := ENTITIES[0].pattern;
    var m := p + b;
    assert m[..|p|] == p && m[|p|..] == b && m[1..] == p[1..] + b;
    ReplaceAt(a, m, p, ENTITIES[0].text);
  }

  lemma LoneAmpersandStays(a: string, b: string)
    requires '&' !in a && '&' !in b
    requires forall i :: 1 <= i < |ENTITIES| ==> !StartsWith("&" + b, ENTITIES[i].pattern)
    ensures ReplaceEach(a + ("&amp;" + b), ENTITIES) == a + ("&" + b)
  {
    RulesStart();
    AmpersandComesFirst(a, b);
    assert ("&" + b)[1..] == b;
    var rest := ENTITIES[1..];
    assert forall i :: 0 <= i < |rest| ==> rest[i] == ENTITIES[i + 1];
    NoRuleFits(rest, '&', a, "&" + b);
  }

  lemma BreakTagsDiffer(i: nat, j: nat, b: string)
    requires j < i < |BREAK_TAGS|
    ensures !StartsWith(BREAK_TAGS[i].pattern + b, BREAK_TAGS[j].pattern)
  {
    var p, q := BREAK_TAGS[i].pattern, BREAK_TAGS[j].pattern;
    var k := if i >= 3 && j < 3 then 1 else 3;
    assert k < |p| && k < |q| && p[k] != q[k];
    assert (p + b)[k] == p[k];
    DiffersAt(p + b, q, k);
  }

  lemma OneBreakTag(a: string, i: nat, b: string)
    requires '<' !in a && '<' !in b && i < |BREAK_TAGS|
    ensures ReplaceEach(a + (BREAK_TAGS[i].pattern + b), BREAK_TAGS) == a + (BREAK_TAGS[i].text + b)
  {
    RulesStart();
    forall j | 0 <= j < i
      ensures !StartsWith(BREAK_TAGS[i].pattern + b, BREAK_TAGS[j].pattern)
    {
      BreakTagsDiffer(i, j, b);
    }
    OneRuleFits(BREAK_TAGS, '<', i, a, b);
  }

  /** The six spellings of a line break. */
  lemma BreakTagsBreak(a: string, b: string)
    requires '<' !in a && '<' !in b
    ensures ReplaceEach(a + ("<br>" + b), BREAK_TAGS) == a + ("\n" + b)
    ensures ReplaceEach(a + ("<br/>" + b), BREAK_TAGS) == a + ("\n" + b)
    ensures ReplaceEach(a + ("<br />" + b), BREAK_TAGS) == a + ("\n" + b)
    ensures ReplaceEach(a + ("<BR>" + b), BREAK_TAGS) == a + ("\n" + b)
    ensures ReplaceEach(a + ("<BR/>" + b), BREAK_TAGS) == a + ("\n" + b)
    ensures ReplaceEach(a + ("<BR />" + b), BREAK_TAGS) == a + ("\n" + b)
  {
    OneBreakTag(a, 0, b);
    OneBreakTag(a, 1, b);
    OneBreakTag(a, 2, b);
    OneBreakTag(a, 3, b);
    OneBreakTag(a, 4, b);
    OneBreakTag(a, 5, b);
  }

  /** With mixed letter cases a tag is no break. */
  lemma MixedCaseIsNoBreak(a: string, b: string)
    requires '<' !in a && '<' !in b
    ensures ReplaceEach(a + ("<Br>" + b), BREAK_TAGS) == a + ("<Br>" + b)
  {
    var m := "<Br>" + b;
    RulesStart();
    assert m[1..] == "Br>" + b;
    forall j | 0 <= j < |BREAK_TAGS|
      ensures !StartsWith(m, BREAK_TAGS[j].pattern)
    {
      DiffersAt(m, BREAK_TAGS[j].pattern, if j < 3 then 1 else 2);
    }
    NoRuleFits(BREAK_TAGS, '<', a, m);
  }

  // ── The cut and the order of the stages ─────────────────────────────────

  /** The text starts with `(source`, in any letter case. */
  predicate NamesSource(s: string) { 7 <= |s| && EqIgnoreCase(s[..7], "(source") }

  lemma SourceAtMeans(s: string, i: nat)
    requires i <= |s|
    ensures SourceAt(s, i) <==> NamesSource(s[i..])
  {
    assert SOURCE == "(source";
    forall j | 0 <= j < 7
      ensures Lower(SOURCE[j]) == SOURCE[j]
    {
    }
    if i + 7 <= |s| {
      var t := s[i..][..7];
      forall j | 0 <= j < 7
        ensures t[j] == s[i + j]
      {
      }
    }
  }

  /** A tail that is the last to start with `(source`, in any letter case, is cut exactly if it is at
      most 200 bytes long and one line. */
  lemma TailIsCutExactlyWhen(a: string, m: string)
    requires NamesSource(m) && forall j :: 0 < j < |m| ==> !NamesSource(m[j..])
    ensures Truncated(a + m) == if |UrlText.Utf8All(m)| <= 200 && '\n' !in m then a else a + m
  {
    var s := a + m;
    assert s[|a|..] == m && s[..|a|] == a;
    SourceAtMeans(s, |a|);
    forall j | |a| < j < |s|
      ensures !SourceAt(s, j)
    {
      SourceAtMeans(s, j);
      assert s[j..] == m[j - |a|..];
    }
    LastOccurrenceDecides(s, |a|);
  }

  lemma NothingToCut(s: string)
    requires '(' !in s
    ensures Truncated(s) == s
  {
    forall i | 0 <= i < |s|
      ensures !Attribution(s, i)
    {
      assert SOURCE[0] == '(';
      assert SourceAt(s, i) ==> Lower(s[i + 0]) == '(';
    }
  }

  lemma BodyInStages(s: string, s1: string, s2: string, s3: string, s4: string)
    ensures (&& ReplaceEach(s, BREAK_TAGS) == s1 && StripTags(s1, false) == s2
             && ReplaceEach(s2, ENTITIES) == s3 && Truncated(s3) == s4) ==> Body(s) == s4
  {
  }

  predicate Plain(s: string) { '<' !in s && '&' !in s && '(' !in s }

  lemma EntityInBody(a: string, i: nat, b: string)
    requires Plain(a) && Plain(b) && 0 < i < |ENTITIES| && '(' !in ENTITIES[i].text && '<' !in ENTITIES[i].pattern
    ensures Body(a + (ENTITIES[i].pattern + b)) == a + (ENTITIES[i].text + b)
  {
    var s, t := a + (ENTITIES[i].pattern + b), a + (ENTITIES[i].text + b);
    RulesStart();
    ReplaceEachAbsent(s, BREAK_TAGS, '<');
    StripNothing(s);
    OneEntity(a, i, b);
    NothingToCut(t);
    BodyInStages(s, s, s, t, t);
  }

  /** Tags are stripped before entities are decoded, so escaped markup stays in the text. */
  lemma EscapedMarkupSurvives(a: string, b: string)
    requires Plain(a) && Plain(b)
    ensures Body(a + ("&lt;" + b)) == a + ("<" + b)
  {
    EntityInBody(a, 1, b);
  }

  lemma BreakInBody(a: string, i: nat, b: string)
    requires Plain(a) && Plain(b) && i < |BREAK_TAGS| && Plain(BREAK_TAGS[i].text)
    ensures Body(a + (BREAK_TAGS[i].pattern + b)) == a + (BREAK_TAGS[i].text + b)
  {
    var s, t := a + (BREAK_TAGS[i].pattern + b), a + (BREAK_TAGS[i].text + b);
    RulesStart();
    OneBreakTag(a, i, b);
    StripNothing(t);
    ReplaceEachAbsent(t, ENTITIES, '&');
    NothingToCut(t);
    BodyInStages(s, t, t, t, t);
  }

  /** Breaks are made before tags are stripped, so they are not lost. */
  lemma BreaksAreNotStripped(a: string, b: string)
    requires Plain(a) && Plain(b)
    ensures Body(a + ("<br>" + b)) == a + ("\n" + b)
  {
    BreakInBody(a, 0, b);
  }

  lemma BoldIsNoBreak(a: string, m: string)
    requires '<' !in a && 3 <= |m| && m[0] == '<' && m[1] == 'b' && m[2] == '>' && '<' !in m[1..]
    ensures ReplaceEach(a + m, BREAK_TAGS) == a + m
  {
    RulesStart();
    forall j | 0 <= j < |BREAK_TAGS|
      ensures !StartsWith(m, BREAK_TAGS[j].pattern)
    {
      DiffersAt(m, BREAK_TAGS[j].pattern, if j < 3 then 2 else 1);
    }
    NoRuleFits(BREAK_TAGS, '<', a, m);
  }

  lemma BoldIsStripped(a: string, b: string)
    requires '<' !in a && '<' !in b
    ensures StripTags(a + (['<', 'b', '>'] + b), false) == a + b
  {
    TagIsDropped(a, ['b'], b);
    assert a + ['<'] + ['b'] + ['>'] + b == a + (['<', 'b', '>'] + b);
    StripNothing(b);
  }

  lemma SourceIsCut(a: string)
    ensures Truncated(a + "(source)") == a
  {
    var m := "(source)";
    assert m[..7] == "(source";
    forall j | 0 < j < |m|
      ensures !NamesSource(m[j..])
    {
      assert |m[j..]| >= 7 ==> m[j..][..7][0] == 's';
    }
    AsciiBytes(m);
    TailIsCutExactlyWhen(a, m);
  }

  lemma CutAfterStripping(a: string, h: string, b: string)
    requires Plain(a) && '<' !in h && '&' !in h && '<' !in b && '&' !in b && Truncated(a + h + b) == a
    ensures Body(a + h + (['<', 'b', '>'] + b)) == a
  {
    var m := ['<', 'b', '>'] + b;
    assert m[1..] == ['b', '>'] + b;
    BoldIsNoBreak(a + h, m);
    BoldIsStripped(a + h, b);
    RulesStart();
    ReplaceEachAbsent(a + h + b, ENTITIES, '&');
    BodyInStages(a + h + m, a + h + m, a + h + b, a + h + b, a);
  }

  /** The attribution is looked for last: one that only stripping a tag brings together is cut. */
  lemma CutComesLast(a: string)
    requires Plain(a)
    ensures Body(a + "(sou" + (['<', 'b', '>'] + "rce)")) == a
  {
    SourceIsCut(a);
    assert a + "(sou" + "rce)" == a + "(source)" by {
      assert "(sou" + "rce)" == "(source)";
    }
    CutAfterStripping(a, "(sou", "rce)");
  }

  lemma {:induction false} AsciiBytes(s: string)
    requires forall i :: 0 <= i < |s| ==> s[i] as int < 128
    ensures |UrlText.Utf8All(s)| == |s|
  {
    if s != "" {
      AsciiBytes(s[1..]);
    }
  }
}
