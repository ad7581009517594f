/** The guard that stops a stream whose end is one short pattern, repeated over and over. */
module LoopGuards {
  import opened Ordering
  import opened Optional

  /** The lengths of pattern that are tried, how often it has to repeat, and how much of the stream is looked at. */
  datatype Limits = Limits(shortest: nat, longest: nat, repeats: nat, window: nat)

  const STREAM_LIMITS := Limits(4, 80, 8, 4096)

  /** Which characters are white space, and which are letters or digits. */
  datatype Classes = Classes(space: char -> bool, alnum: char -> bool)

  function Last(s: string, n: nat): string {
    if n <= |s| then s[|s| - n..] else s
  }

  /** The end of the stream without its white space. */
  function Compact(text: string, limits: Limits, classes: Classes): string {
    Reject(Last(text, limits.window), classes.space)
  }

  function Repeat(s: string, n: nat): string {
    if n == 0 then "" else s + Repeat(s, n - 1)
  }

  function MaxLength(compact: string, limits: Limits): nat
    requires limits.repeats > 0
  {
    if |compact| / limits.repeats < limits.longest then |compact| / limits.repeats else limits.longest
  }

  predicate TwoCharacters(s: string) {
    exists i, j | 0 <= i < |s| && 0 <= j < |s| :: s[i] != s[j]
  }

  predicate HasAlnum(s: string, classes: Classes) {
    exists i | 0 <= i < |s| :: classes.alnum(s[i])
  }

  predicate EndsWith(s: string, end: string) {
    |end| <= |s| && s[|s| - |end|..] == end
  }

  /** The text ends in repeats of its last `length` characters, and they look like more than a separator. */
  predicate Pathological(compact: string, length: nat, limits: Limits, classes: Classes) {
    && length <= |compact|
    && EndsWith(compact, Repeat(Last(compact, length), limits.repeats))
    && HasAlnum(Last(compact, length), classes)
    && TwoCharacters(Last(compact, length))
  }

  /** The shortest pathological pattern within these lengths. */
  function Search(compact: string, length: nat, longest: nat, limits: Limits, classes: Classes): Option<string>
    decreases longest + 1 - length
  {
    if length > longest then None
    else if Pathological(compact, length, limits, classes) then Some(Last(compact, length))
    else Search(compact, length + 1, longest, limits, classes)
  }

  /** The pattern the stream's end repeats, if any. */
  function Detect(text: string, limits: Limits, classes: Classes): Option<string>
    requires limits.repeats > 0
  {
    var compact := Compact(text, limits, classes);
    Search(compact, limits.shortest, MaxLength(compact, limits), limits, classes)
  }

  method RepeatedStreamPattern(text: string, classes: Classes) returns (r: Option<string>)
    ensures r == Detect(text, STREAM_LIMITS, classes)
  {
    r := RepeatedPattern(text, STREAM_LIMITS, classes);
  }

  method RepeatedPattern(text: string, limits: Limits, classes: Classes) returns (r: Option<string>)
    requires limits.repeats > 0
    ensures r == Detect(text, limits, classes)
  {
    var compact := Compact(text, limits, classes);
    AtMostQuotient(|compact|, limits.repeats, MaxLength(compact, limits));
    r := FirstPattern(compact, MaxLength(compact, limits), limits, classes);
  }

  method FirstPattern(compact: string, longest: nat, limits: Limits, classes: Classes) returns (r: Option<string>)
    requires limits.repeats > 0 && Fits(longest, limits.repeats, |compact|)
    ensures r == Search(compact, limits.shortest, longest, limits, classes)
  {
    var length := limits.shortest;
    while length <= longest
      invariant Search(compact, limits.shortest, longest, limits, classes) == Search(compact, length, longest, limits, classes)
    {
      var found := IsPattern(compact, length, longest, limits, classes);
      if found {
        return Some(Last(compact, length));
      }
      length := length + 1;
    }
    r := None;
  }

  method IsPattern(compact: string, length: nat, longest: nat, limits: Limits, classes: Classes) returns (found: bool)
    requires limits.repeats > 0 && length <= longest && Fits(longest, limits.repeats, |compact|)
    ensures found == Pathological(compact, length, limits, classes)
  {
    var pattern := Last(compact, length);
    TestIsExact(compact, length, longest, limits, classes);
    found := Repeat(pattern, limits.repeats) == Last(compact, length * limits.repeats)
             && HasAlnum(pattern, classes) && TwoCharacters(pattern);
  }

  predicate Fits(length: nat, repeats: nat, total: nat) {
    length * repeats <= total
  }

  lemma TestIsExact(compact: string, length: nat, longest: nat, limits: Limits, classes: Classes)
    requires limits.repeats > 0 && length <= longest && longest * limits.repeats <= |compact|
    ensures Pathological(compact, length, limits, classes) <==>
            Repeat(Last(compact, length), limits.repeats) == Last(compact, length * limits.repeats)
            && HasAlnum(Last(compact, length), classes) && TwoCharacters(Last(compact, length))
  {
    SameSuffix(compact, length, longest, limits.repeats);
  }

  /** Comparing the repeated pattern with as long a suffix decides whether the text ends in it. */
  lemma SameSuffix(compact: string, length: nat, longest: nat, repeats: nat)
    requires repeats > 0 && length <= longest && longest * repeats <= |compact|
    ensures length <= |compact|
    ensures var pattern := Last(compact, length);
            EndsWith(compact, Repeat(pattern, repeats)) <==> Repeat(pattern, repeats) == Last(compact, length * repeats)
  {
    TimesMonotone(length, longest, repeats);
    SameLength(Last(compact, length), length, repeats);
    EndsWithLast(compact, Repeat(Last(compact, length), repeats));
  }

  lemma SameLength(pattern: string, length: nat, repeats: nat)
    requires |pattern| == length
    ensures |Repeat(pattern, repeats)| == length * repeats
  {
    RepeatLength(pattern, repeats);
  }

  lemma EndsWithLast(s: string, end: string)
    requires |end| <= |s|
    ensures EndsWith(s, end) <==> end == Last(s, |end|)
  {
  }

  lemma TimesMonotone(a: nat, b: nat, n: nat)
    requires a <= b && n > 0
    ensures a * n <= b * n && a <= a * n
  {
    assert b * n == a * n + (b - a) * n && (b - a) * n >= 0;
    assert a * n == a + a * (n - 1) && a * (n - 1) >= 0;
  }

  // ---- The shortest admissible pattern is reported ----

  lemma AtMostQuotient(n: nat, d: nat, k: nat)
    requires d > 0
    ensures k <= n / d <==> k * d <= n
  {
    var q, r := n / d, n % d;
    assert n == q * d + r && r < d;
    if k <= q {
      TimesMonotone(k, q, d);
    } else {
      TimesMonotone(q + 1, k, d);
      assert (q + 1) * d == q * d + d;
    }
  }

  predicate Within(compact: string, m: nat, from: nat, longest: nat, limits: Limits, classes: Classes) {
    from <= m <= longest && Pathological(compact, m, limits, classes)
  }

  /** `n` is the least length within these bounds that has a pattern. */
  ghost predicate LeastWithin(compact: string, n: nat, from: nat, longest: nat, limits: Limits, classes: Classes) {
    && Within(compact, n, from, longest, limits, classes)
    && forall m: nat | m < n :: !Within(compact, m, from, longest, limits, classes)
  }

  lemma {:induction false} SearchExact(compact: string, from: nat, longest: nat, limits: Limits, classes: Classes) returns (n: nat)
    ensures var r := Search(compact, from, longest, limits, classes);
            if r.None? then forall m: nat :: !Within(compact, m, from, longest, limits, classes)
            else LeastWithin(compact, n, from, longest, limits, classes) && r.value == Last(compact, n)
    decreases longest + 1 - from
  {
    n := from;
    if from <= longest && !Pathological(compact, from, limits, classes) {
      n := SearchExact(compact, from + 1, longest, limits, classes);
      forall m: nat ensures Within(compact, m, from, longest, limits, classes) <==> Within(compact, m, from + 1, longest, limits, classes) {
      }
    }
  }

  /** A pattern is reported exactly when some admissible length has one, and then the one of the least such length. */
  lemma DetectExact(text: string, limits: Limits, classes: Classes) returns (n: nat)
    requires limits.repeats > 0
    ensures var compact, r := Compact(text, limits, classes), Detect(text, limits, classes);
            if r.None? then forall m: nat :: !Within(compact, m, limits.shortest, limits.longest, limits, classes)
            else LeastWithin(compact, n, limits.shortest, limits.longest, limits, classes) && r.value == Last(compact, n)
  {
    var compact := Compact(text, limits, classes);
    var longest := MaxLength(compact, limits);
    n := SearchExact(compact, limits.shortest, longest, limits, classes);
    forall m: nat ensures Within(compact, m, limits.shortest, limits.longest, limits, classes)
                          <==> Within(compact, m, limits.shortest, longest, limits, classes) {
      if Pathological(compact, m, limits, classes) { PathologicalFits(compact, m, limits, classes); }
    }
  }

  lemma PathologicalFits(compact: string, length: nat, limits: Limits, classes: Classes)
    requires limits.repeats > 0 && Pathological(compact, length, limits, classes)
    ensures length <= |compact| / limits.repeats
  {
    RepeatLength(Last(compact, length), limits.repeats);
    AtMostQuotient(|compact|, limits.repeats, length);
  }

  // ---- The pattern is not itself a repetition ----

  lemma {:induction false} RepeatLength(w: string, n: nat)
    ensures |Repeat(w, n)| == n * |w|
  {
    if n > 0 {
      RepeatLength(w, n - 1);
      assert |w| + (n - 1) * |w| == n * |w|;
    }
  }

  lemma {:induction false} RepeatAdd(w: string, m: nat, n: nat)
    ensures Repeat(w, m + n) == Repeat(w, m) + Repeat(w, n)
  {
    if m == 0 {
      assert "" + Repeat(w, n) == Repeat(w, n);
    } else {
      RepeatAdd(w, m - 1, n);
      assert w + (Repeat(w, m - 1) + Repeat(w, n)) == w + Repeat(w, m - 1) + Repeat(w, n);
    }
  }

  lemma {:induction false} RepeatTwice(w: string, k: nat, n: nat)
    ensures Repeat(Repeat(w, k), n) == Repeat(w, n * k)
  {
    if n > 0 {
      RepeatTwice(w, k, n - 1);
      RepeatAdd(w, k, (n - 1) * k);
      assert k + (n - 1) * k == n * k;
    }
  }

  /** A text that ends in many repeats of a word ends in fewer of them. */
  lemma EndsInFewer(s: string, w: string, m: nat, n: nat)
    requires m <= n && EndsWith(s, Repeat(w, n))
    ensures EndsWith(s, Repeat(w, m))
  {
    RepeatAdd(w, n - m, m);
    var rest, end := Repeat(w, n - m), Repeat(w, m);
    assert s[|s| - |rest + end|..] == rest + end;
    assert s[|s| - |end|..] == s[|s| - |rest + end|..][|rest|..] == (rest + end)[|rest|..] == end;
  }

  lemma {:induction false} RepeatCharacters(w: string, k: nat, i: nat)
    requires i < |Repeat(w, k)|
    ensures Repeat(w, k)[i] in w
  {
    if i >= |w| { RepeatCharacters(w, k - 1, i - |w|); }
  }

  /** What makes a repetition more than a separator is already in the repeated word. */
  lemma WordIsNoSeparator(w: string, k: nat, classes: Classes)
    requires HasAlnum(Repeat(w, k), classes) && TwoCharacters(Repeat(w, k))
    ensures HasAlnum(w, classes) && TwoCharacters(w)
  {
    var p := Repeat(w, k);
    var i :| 0 <= i < |p| && classes.alnum(p[i]);
    RepeatCharacters(w, k, i);
    var a, b :| 0 <= a < |p| && 0 <= b < |p| && p[a] != p[b];
    RepeatCharacters(w, k, a);
    RepeatCharacters(w, k, b);
  }

  /** The word that a pathological pattern repeats is pathological as well. */
  lemma WordIsPathological(compact: string, length: nat, w: string, k: nat, limits: Limits, classes: Classes)
    requires Pathological(compact, length, limits, classes) && limits.repeats > 0
    requires Last(compact, length) == Repeat(w, k) && k >= 1
    ensures Pathological(compact, |w|, limits, classes)
  {
    var n := limits.repeats;
    RepeatTwice(w, k, n);
    TimesMonotone(n, n, k);
    EndsInFewer(compact, w, n, n * k);
    EndsInFewer(compact, w, 1, n * k);
    assert Repeat(w, 1) == w + Repeat(w, 0) == w;
    assert Last(compact, |w|) == w;
    WordIsNoSeparator(w, k, classes);
  }

  lemma LeastIsPrimitive(compact: string, n: nat, w: string, k: nat, limits: Limits, classes: Classes)
    requires limits.repeats > 0 && limits.shortest > 0 && LeastWithin(compact, n, limits.shortest, limits.longest, limits, classes)
    requires |w| >= limits.shortest && k >= 2
    ensures Last(compact, n) != Repeat(w, k)
  {
    if Last(compact, n) == Repeat(w, k) {
      WordIsPathological(compact, n, w, k, limits, classes);
      RepeatIsLonger(w, k);
      assert Within(compact, |w|, limits.shortest, limits.longest, limits, classes);
    }
  }

  lemma RepeatIsLonger(w: string, k: nat)
    requires w != "" && k >= 2
    ensures |w| < |Repeat(w, k)|
  {
    assert Repeat(w, k) == w + (w + Repeat(w, k - 2));
  }

  /** The reported pattern is never two or more repeats of a word that is long enough to be reported itself. */
  lemma PatternIsPrimitive(text: string, w: string, k: nat, limits: Limits, classes: Classes)
    requires limits.repeats > 0 && limits.shortest > 0 && Detect(text, limits, classes).Some?
    requires |w| >= limits.shortest && k >= 2
    ensures Detect(text, limits, classes).value != Repeat(w, k)
  {
    var n := DetectExact(text, limits, classes);
    LeastIsPrimitive(Compact(text, limits, classes), n, w, k, limits, classes);
  }

  // ---- Detection in terms of the characters ----

  /** Every character but the last `n` recurs `n` places later. */
  ghost predicate HasPeriod(s: string, n: nat) {
    forall i | 0 <= i && i + n < |s| :: s[i] == s[i + n]
  }

  lemma {:induction false} RepeatHasPeriod(w: string, repeats: nat)
    requires repeats > 0
    ensures HasPeriod(Repeat(w, repeats), |w|) && w <= Repeat(w, repeats)
  {
    var n, rest := |w|, Repeat(w, repeats - 1);
    if repeats > 1 {
      RepeatHasPeriod(w, repeats - 1);
      forall i | 0 <= i && i + n < |w + rest| ensures (w + rest)[i] == (w + rest)[i + n] {
        if i < n { assert rest[..n] == w; } else { assert rest[i - n] == rest[i]; }
      }
    }
  }

  lemma {:induction false} PeriodIsRepeat(u: string, w: string, repeats: nat)
    requires repeats > 0 && w != "" && |u| == repeats * |w| && |u| >= |w| && u[|u| - |w|..] == w
    requires HasPeriod(u, |w|)
    ensures u == Repeat(w, repeats)
  {
    var n := |w|;
    if repeats == 1 {
      assert Repeat(w, 1) == w + Repeat(w, 0) == w && u == w;
    } else {
      assert |u| == n + (repeats - 1) * n;
      TimesMonotone(1, repeats - 1, n);
      var front, rest := u[..n], u[n..];
      assert rest[|rest| - n..] == w;
      forall i | 0 <= i && i + n < |rest| ensures rest[i] == rest[i + n] { assert u[i + n] == u[i + n + n]; }
      PeriodIsRepeat(rest, w, repeats - 1);
      RepeatHasPeriod(w, repeats - 1);
      forall i | 0 <= i < n ensures front[i] == w[i] { assert u[i] == u[i + n] == rest[i] == rest[..n][i]; }
      assert u == front + rest && front == w;
    }
  }

  lemma RepeatIffPeriod(u: string, w: string, repeats: nat)
    requires repeats > 0 && w != "" && |u| == repeats * |w| && |u| >= |w| && u[|u| - |w|..] == w
    ensures u == Repeat(w, repeats) <==> HasPeriod(u, |w|)
  {
    RepeatHasPeriod(w, repeats);
    if HasPeriod(u, |w|) { PeriodIsRepeat(u, w, repeats); }
  }

  /** What is looked at: the end of the stream, white space left out. */
  ghost function Looked(text: string, window: nat, space: char -> bool): string {
    Reject(if |text| <= window then text else text[|text| - window..], space)
  }

  /** The last `8 * n` characters repeat every `n`, and among the last `n` some are letters or digits and some differ. */
  ghost predicate Loops(t: string, n: nat, repeats: nat, alnum: char -> bool) {
    && n <= |t| && n * repeats <= |t|
    && HasPeriod(t[|t| - n * repeats..], n)
    && (exists i | |t| - n <= i < |t| :: alnum(t[i]))
    && (exists i, j | |t| - n <= i < j < |t| :: t[i] != t[j])
  }

  lemma NoSeparatorIff(t: string, n: nat, classes: Classes)
    requires n <= |t|
    ensures HasAlnum(Last(t, n), classes) <==> exists i :: |t| - n <= i < |t| && classes.alnum(t[i])
    ensures TwoCharacters(Last(t, n)) <==> exists i, j :: |t| - n <= i < j < |t| && t[i] != t[j]
  {
    var w, o := Last(t, n), |t| - n;
    assert forall i | 0 <= i < n :: w[i] == t[o + i];
    if i :| o <= i < |t| && classes.alnum(t[i]) { assert w[i - o] == t[i]; }
    if i, j :| o <= i < j < |t| && t[i] != t[j] { assert w[i - o] == t[i] && w[j - o] == t[j]; }
    if TwoCharacters(w) {
      var i, j :| 0 <= i < |w| && 0 <= j < |w| && w[i] != w[j];
      if i < j { assert t[o + i] != t[o + j]; } else { assert t[o + j] != t[o + i]; }
    }
  }

  lemma EndsInRepeatsIff(t: string, n: nat, repeats: nat)
    requires repeats > 0 && 0 < n <= |t|
    ensures EndsWith(t, Repeat(Last(t, n), repeats)) <==>
            n * repeats <= |t| && HasPeriod(t[|t| - n * repeats..], n)
  {
    var w := Last(t, n);
    RepeatLength(w, repeats);
    if n * repeats <= |t| {
      var u := t[|t| - n * repeats..];
      TimesMonotone(1, repeats, n);
      assert u[|u| - n..] == w;
      RepeatIffPeriod(u, w, repeats);
    }
  }

  lemma LoopsIffPathological(t: string, n: nat, limits: Limits, classes: Classes)
    requires limits.repeats > 0
    ensures Pathological(t, n, limits, classes) <==> Loops(t, n, limits.repeats, classes.alnum)
  {
    if 0 < n <= |t| {
      NoSeparatorIff(t, n, classes);
      EndsInRepeatsIff(t, n, limits.repeats);
    }
  }

  /** The stream is stopped exactly when its last 4096 characters, without their white space, end in eight repeats of
      4 to 80 characters that look like more than a separator; the shortest such repetition is reported. */
  lemma StreamLoopIff(text: string, classes: Classes) returns (n: nat)
    ensures var t, r := Looked(text, 4096, classes.space), Detect(text, STREAM_LIMITS, classes);
            && (r.Some? ==> 4 <= n <= 80 && Loops(t, n, 8, classes.alnum) && r.value == t[|t| - n..])
            && (forall m | 4 <= m <= 80 && Loops(t, m, 8, classes.alnum) :: r.Some? && n <= m)
  {
    var t := Looked(text, 4096, classes.space);
    n := DetectExact(text, STREAM_LIMITS, classes);
    assert t == Compact(text, STREAM_LIMITS, classes);
    forall m: nat ensures Within(t, m, 4, 80, STREAM_LIMITS, classes) <==> 4 <= m <= 80 && Loops(t, m, 8, classes.alnum) {
      LoopsIffPathological(t, m, STREAM_LIMITS, classes);
    }
  }
}
