/**
 Contact-detail redaction. The scanner follows a regular-expression engine on `\d(?:[\s-]*\d){7,}` with the global
 flag; the specification says position by position what the output is.
 */
module Redaction {
  import opened Domain

  const REDACTED: string := "\U{2039}\U{2026}\U{203A}"
  const RUN := 8

  predicate IsDigit(c: char) { '0' <= c <= '9' }

  /** `\s` or a dash. */
  predicate IsSeparator(c: char) {
    c in {' ', '\t', '\n', '\r', '\U{0B}', '\U{0C}', '\U{A0}', '\U{1680}', '\U{2028}', '\U{2029}', '\U{202F}', '\U{205F}',
          '\U{3000}', '\U{FEFF}', '-'}
    || '\U{2000}' <= c <= '\U{200A}'
  }

  predicate IsClusterChar(c: char) { IsDigit(c) || IsSeparator(c) }

  lemma {:induction false} DigitIsNoSeparator(c: char)
    ensures !(IsDigit(c) && IsSeparator(c))
  {
  }

  // ---------------------------------------------------------------- scanner

  /** Length of the match of `[\s-]*\d` at the start of `t`. */
  function Group(t: string): Option<nat> {
    if t == [] then None
    else if IsDigit(t[0]) then Some(1)
    else if IsSeparator(t[0]) then
      var rest := Group(t[1..]);
      if rest.Some? then Some(rest.value + 1) else None
    else None
  }

  datatype Greedy = Greedy(length: nat, count: nat)

  lemma {:induction false} GroupBounds(t: string)
    ensures Group(t).Some? ==> 1 <= Group(t).value <= |t|
  {
    if t != [] { GroupBounds(t[1..]); }
  }

  /** Greedy repetition of the group at the start of `t`. */
  function Groups(t: string): Greedy
    decreases |t|
  {
    GroupBounds(t);
    match Group(t)
    case None => Greedy(0, 0)
    case Some(n) =>
      var rest := Groups(t[n..]);
      Greedy(n + rest.length, 1 + rest.count)
  }

  lemma {:induction false} GroupsBounds(t: string)
    ensures Groups(t).length <= |t|
    decreases |t|
  {
    GroupBounds(t);
    if Group(t).Some? { GroupsBounds(t[Group(t).value..]); }
  }

  /** `text.replace(LONG_DIGIT_RUN, REDACTED)`. */
  function Redact(t: string): string
    decreases |t|
  {
    if t == [] then []
    else
      GroupsBounds(t[1..]);
      var more := Groups(t[1..]);
      if IsDigit(t[0]) && more.count >= RUN - 1 then REDACTED + Redact(t[1..][more.length..])
      else [t[0]] + Redact(t[1..])
  }

  // ---------------------------------------------------------- specification

  function Digits(w: string): nat {
    if w == [] then 0 else (if IsDigit(w[0]) then 1 else 0) + Digits(w[1..])
  }

  /** Starts and ends with a digit, with only separators and digits between. */
  predicate IsCluster(w: string) {
    w != [] && IsDigit(w[0]) && IsDigit(w[|w| - 1]) && forall k :: 0 <= k < |w| ==> IsClusterChar(w[k])
  }

  predicate IsLongCluster(w: string) { IsCluster(w) && Digits(w) >= RUN }

  predicate LongAt(s: string, i: int, j: int) { 0 <= i < j <= |s| && IsLongCluster(s[i..j]) }

  /** Position `k` lies in a long cluster. */
  ghost predicate Covered(s: string, k: int) {
    exists i, j :: LongAt(s, i, j) && i <= k < j
  }

  /** A covered stretch yields one placeholder, every other character itself. */
  ghost function Emit(s: string, k: nat): string
    requires k < |s|
  {
    if !Covered(s, k) then [s[k]]
    else if k == 0 || !Covered(s, k - 1) then REDACTED
    else []
  }

  ghost function Spec(s: string, i: nat): string
    requires i <= |s|
    decreases |s| - i
  {
    if i == |s| then [] else Emit(s, i) + Spec(s, i + 1)
  }

  // -------------------------------------------------------- greedy is maximal

  lemma {:induction false} DigitsSplit(a: string, b: string)
    ensures Digits(a + b) == Digits(a) + Digits(b)
  {
    if a == [] {
      assert a + b == b;
    } else {
      assert (a + b)[1..] == a[1..] + b;
      DigitsSplit(a[1..], b);
    }
  }

  predicate AllCluster(w: string) { forall k :: 0 <= k < |w| ==> IsClusterChar(w[k]) }

  /** The first `j` characters of `t` are separators and digits and end in a digit. */
  predicate Reaches(t: string, j: int) { 0 < j <= |t| && AllCluster(t[..j]) && IsDigit(t[j - 1]) }

  /** A group consists of separators and one final digit, and none exists only if no digit can be reached. */
  lemma {:induction false} GroupMeaning(t: string)
    ensures Group(t).Some? ==>
      && Group(t).value <= |t|
      && AllCluster(t[..Group(t).value]) && IsDigit(t[Group(t).value - 1]) && Digits(t[..Group(t).value]) == 1
    ensures forall j {:trigger Reaches(t, j)} :: Reaches(t, j) ==>
      Group(t).Some? && Group(t).value <= j
  {
    if t != [] {
      DigitIsNoSeparator(t[0]);
      GroupBounds(t);
      if IsDigit(t[0]) {
        assert t[..1] == [t[0]] && t[..1][1..] == [];
      } else if IsSeparator(t[0]) {
        GroupMeaning(t[1..]);
        if Group(t).Some? {
          var n := Group(t).value;
          assert t[..n] == [t[0]] + t[1..][..n - 1];
          assert t[..n][1..] == t[1..][..n - 1];
        }
        forall j | Reaches(t, j) ensures Group(t).Some? && Group(t).value <= j {
          assert j > 1;
          var v := t[1..][..j - 1];
          forall k | 0 <= k < |v| ensures IsClusterChar(v[k]) { assert t[..j][k + 1] == v[k]; }
          assert Reaches(t[1..], j - 1);
        }
      } else {
        forall j | 0 < j <= |t| ensures !AllCluster(t[..j]) { assert t[..j][0] == t[0]; }
      }
    }
  }

  /** The greedy match takes every digit reachable through separators and digits, and counts them. */
  lemma {:induction false} GroupsMeaning(t: string)
    ensures var g := Groups(t);
      && g.length <= |t| && AllCluster(t[..g.length]) && Digits(t[..g.length]) == g.count
      && (g.count > 0 ==> g.length > 0 && IsDigit(t[g.length - 1])) && (g.count == 0 ==> g.length == 0)
    ensures forall j {:trigger Reaches(t, j)} :: Reaches(t, j) ==> j <= Groups(t).length
    decreases |t|
  {
    GroupMeaning(t);
    if Group(t).Some? {
      var n := Group(t).value;
      var u := t[n..];
      GroupsMeaning(u);
      var g, h := Groups(t), Groups(u);
      assert t[..g.length] == t[..n] + u[..h.length];
      DigitsSplit(t[..n], u[..h.length]);
      forall j | Reaches(t, j) ensures j <= g.length {
        if j > n {
          assert u[j - n - 1] == t[j - 1];
          var v := u[..j - n];
          forall k | 0 <= k < |v| ensures IsClusterChar(v[k]) { assert v[k] == t[..j][n + k]; }
          assert Reaches(u, j - n);
        }
      }
    }
  }

  // ------------------------------------------------- the scanner meets the spec

  /** No long cluster straddles position `i`. */
  ghost predicate Boundary(s: string, i: int) {
    forall a, b :: LongAt(s, a, b) ==> !(a < i < b)
  }

  lemma {:induction false} DigitsMonotone(s: string, a: nat, i: nat, j: nat, b: nat)
    requires a <= i <= j <= b <= |s|
    ensures Digits(s[i..j]) <= Digits(s[a..b])
  {
    assert s[a..b] == s[a..i] + (s[i..j] + s[j..b]);
    DigitsSplit(s[a..i], s[i..j] + s[j..b]);
    DigitsSplit(s[i..j], s[j..b]);
  }

  /** Clusters that meet or overlap form one cluster. */
  lemma {:induction false} LongUnion(s: string, a: int, b: int, i: int, j: int)
    requires LongAt(s, a, b) && LongAt(s, i, j) && a <= i <= b <= j
    ensures LongAt(s, a, j)
  {
    var w := s[a..j];
    forall k | 0 <= k < |w| ensures IsClusterChar(w[k]) {
      if a + k < b { assert w[k] == s[a..b][k]; } else { assert w[k] == s[i..j][a + k - i]; }
    }
    assert w[0] == s[a..b][0] && w[|w| - 1] == s[i..j][j - i - 1];
    DigitsMonotone(s, a, a, b, j);
  }

  lemma {:induction false} MatchIsLong(s: string, i: nat)
    requires i < |s| && IsDigit(s[i]) && Groups(s[i + 1..]).count >= RUN - 1
    ensures LongAt(s, i, i + 1 + Groups(s[i + 1..]).length)
  {
    var t := s[i + 1..];
    GroupsMeaning(t);
    var g := Groups(t);
    var w := s[i..i + 1 + g.length];
    assert w == [s[i]] + t[..g.length] && w[1..] == t[..g.length];
    assert w[|w| - 1] == t[g.length - 1];
    assert IsLongCluster(w);
  }

  /** A cluster that starts inside the match reaches only where the greedy repetition reaches. */
  lemma {:induction false} OverlapReaches(s: string, i: nat, e: int, a: int, b: int)
    requires LongAt(s, i, e) && LongAt(s, a, b) && i <= a < e && b > i + 1
    ensures Reaches(s[i + 1..], b - i - 1)
  {
    var t, j, w, v := s[i + 1..], b - i - 1, s[i..e], s[a..b];
    assert t[j - 1] == v[|v| - 1];
    var u := t[..j];
    forall k | 0 <= k < |u| ensures IsClusterChar(u[k]) {
      if i + 1 + k < a { assert u[k] == w[k + 1]; } else { assert u[k] == v[i + 1 + k - a]; }
    }
  }

  /** The match at `i` is a long cluster ending at `e`, and no long cluster from `i` on reaches beyond `e`. */
  lemma {:induction false} MatchIsMaximal(s: string, i: nat)
    requires i < |s| && IsDigit(s[i]) && Groups(s[i + 1..]).count >= RUN - 1
    ensures var e := i + 1 + Groups(s[i + 1..]).length;
      LongAt(s, i, e) && forall a, b :: LongAt(s, a, b) && i <= a < e ==> b <= e
  {
    MatchIsLong(s, i);
    GroupsMeaning(s[i + 1..]);
    var e := i + 1 + Groups(s[i + 1..]).length;
    forall a, b | LongAt(s, a, b) && i <= a < e ensures b <= e {
      if b > i + 1 { OverlapReaches(s, i, e, a, b); }
    }
  }

  /** A long cluster starting at `i` makes the scanner match there. */
  lemma {:induction false} LongMeansMatch(s: string, i: nat, b: int)
    requires LongAt(s, i, b)
    ensures IsDigit(s[i]) && Groups(s[i + 1..]).count >= RUN - 1
  {
    var t, w := s[i + 1..], s[i..b];
    GroupsMeaning(t);
    var g, j := Groups(t), b - i - 1;
    assert w[0] == s[i] && w[1..] == t[..j];
    forall k | 0 <= k < j ensures IsClusterChar(t[..j][k]) { assert t[..j][k] == w[k + 1]; }
    assert j > 0 ==> t[j - 1] == w[|w| - 1];
    assert Digits(w) == 1 + Digits(t[..j]) && Digits([]) == 0;
    assert t[..g.length] == t[0..g.length] && t[..j] == t[0..j];
    if j > 0 {
      assert Reaches(t, j);
      DigitsMonotone(t, 0, 0, j, g.length);
    }
  }

  /** Skipping over one whole cluster emits one placeholder. */
  lemma {:induction false} ClusterEmits(s: string, i: nat, e: nat)
    requires Boundary(s, i) && LongAt(s, i, e)
    requires forall a, b :: LongAt(s, a, b) && i <= a < e ==> b <= e
    ensures Spec(s, i) == REDACTED + Spec(s, e) && Boundary(s, e)
  {
    assert Covered(s, i);
    if i > 0 && Covered(s, i - 1) {
      var a, b :| LongAt(s, a, b) && a <= i - 1 < b;
      LongUnion(s, a, b, i, e);
    }
    assert Emit(s, i) == REDACTED;
    SkipCovered(s, i, i + 1, e);
  }

  lemma {:induction false} SkipCovered(s: string, i: nat, k: nat, e: nat)
    requires LongAt(s, i, e) && i < k <= e
    ensures Spec(s, k) == Spec(s, e)
    decreases e - k
  {
    if k < e {
      assert Covered(s, k) && Covered(s, k - 1);
      SkipCovered(s, i, k + 1, e);
      assert Emit(s, k) == [] && [] + Spec(s, k + 1) == Spec(s, k + 1);
    }
  }

  /** One step of the scanner. */
  lemma {:induction false} RedactStep(s: string, i: nat)
    requires i < |s|
    ensures var more := Groups(s[i + 1..]);
      && i + 1 + more.length <= |s|
      && Redact(s[i..]) ==
           if IsDigit(s[i]) && more.count >= RUN - 1 then REDACTED + Redact(s[i + 1 + more.length..])
           else [s[i]] + Redact(s[i + 1..])
  {
    var t := s[i..];
    GroupsBounds(s[i + 1..]);
    assert t[1..] == s[i + 1..];
    assert s[i + 1..][Groups(s[i + 1..]).length..] == s[i + 1 + Groups(s[i + 1..]).length..];
  }

  lemma {:induction false} PlainIsKept(s: string, i: nat)
    requires i < |s| && Boundary(s, i) && !(IsDigit(s[i]) && Groups(s[i + 1..]).count >= RUN - 1)
    ensures Emit(s, i) == [s[i]] && Boundary(s, i + 1)
  {
    forall b ensures !LongAt(s, i, b) { if LongAt(s, i, b) { LongMeansMatch(s, i, b); } }
    assert !Covered(s, i);
  }

  /** The scanner computes the specification from every cluster boundary. */
  lemma {:induction false} RedactMeetsSpecFrom(s: string, i: nat)
    requires i <= |s| && Boundary(s, i)
    ensures Redact(s[i..]) == Spec(s, i)
    decreases |s| - i
  {
    if i < |s| {
      RedactStep(s, i);
      if IsDigit(s[i]) && Groups(s[i + 1..]).count >= RUN - 1 {
        MatchIsMaximal(s, i);
        var e := i + 1 + Groups(s[i + 1..]).length;
        ClusterEmits(s, i, e);
        RedactMeetsSpecFrom(s, e);
      } else {
        PlainIsKept(s, i);
        RedactMeetsSpecFrom(s, i + 1);
      }
    }
  }

  /**
   Exactly the maximal clusters of eight or more digits become one placeholder each; every other
   character is kept in order.
   */
  lemma {:induction false} RedactMeetsSpec(s: string)
    ensures Redact(s) == Spec(s, 0)
  {
    RedactMeetsSpecFrom(s, 0);
    assert s[0..] == s;
  }

  // ------------------------------------------------------------- idempotence

  ghost predicate NoLong(s: string) { forall i, j :: !LongAt(s, i, j) }

  /** No match starts anywhere in `t`. */
  predicate Quiet(t: string) {
    t == [] || (!(IsDigit(t[0]) && Groups(t[1..]).count >= RUN - 1) && Quiet(t[1..]))
  }

  lemma {:induction false} QuietMeansNoLong(s: string, i: nat)
    requires i <= |s| && Quiet(s[i..])
    ensures forall a, b :: i <= a ==> !LongAt(s, a, b)
    decreases |s| - i
  {
    if i < |s| {
      assert s[i..][1..] == s[i + 1..];
      QuietMeansNoLong(s, i + 1);
      forall b ensures !LongAt(s, i, b) { if LongAt(s, i, b) { LongMeansMatch(s, i, b); } }
    }
  }

  lemma {:induction false} NoLongMeansQuiet(s: string, i: nat)
    requires i <= |s| && NoLong(s)
    ensures Quiet(s[i..]) && Redact(s[i..]) == s[i..]
    decreases |s| - i
  {
    if i < |s| {
      assert s[i..][1..] == s[i + 1..];
      NoLongMeansQuiet(s, i + 1);
      if IsDigit(s[i]) && Groups(s[i + 1..]).count >= RUN - 1 { MatchIsMaximal(s, i); }
    }
  }

  /** Prefixing a character changes the leading groups only by that character. */
  lemma {:induction false} GroupsPrefix(c: char, t: string)
    ensures Groups([c] + t).count ==
      if IsDigit(c) then 1 + Groups(t).count else if IsSeparator(c) then Groups(t).count else 0
  {
    DigitIsNoSeparator(c);
    assert ([c] + t)[1..] == t;
    GroupBounds(t);
    if IsSeparator(c) && Group(t).Some? {
      var n := Group(t).value;
      assert ([c] + t)[n + 1..] == t[n..];
    }
  }

  /** Redaction never lengthens a leading run of digits. */
  lemma {:induction false} RedactShortensRuns(t: string)
    ensures Groups(Redact(t)).count <= Groups(t).count
    decreases |t|
  {
    if t != [] {
      GroupsBounds(t[1..]);
      var more := Groups(t[1..]);
      assert t == [t[0]] + t[1..];
      GroupsPrefix(t[0], t[1..]);
      if IsDigit(t[0]) && more.count >= RUN - 1 {
        assert Redact(t)[0] == REDACTED[0];
      } else {
        RedactShortensRuns(t[1..]);
        GroupsPrefix(t[0], Redact(t[1..]));
      }
    }
  }

  lemma {:induction false} QuietAfterPlaceholder(t: string)
    requires Quiet(t)
    ensures Quiet(REDACTED + t)
  {
    var u := REDACTED + t;
    assert u[1..][1..][1..] == t;
    assert !IsDigit(u[0]) && !IsDigit(u[1..][0]) && !IsDigit(u[1..][1..][0]);
    assert Quiet(u[1..][1..]);
  }

  lemma {:induction false} RedactedIsQuiet(t: string)
    ensures Quiet(Redact(t))
    decreases |t|
  {
    if t != [] {
      GroupsBounds(t[1..]);
      var more := Groups(t[1..]);
      if IsDigit(t[0]) && more.count >= RUN - 1 {
        RedactedIsQuiet(t[1..][more.length..]);
        QuietAfterPlaceholder(Redact(t[1..][more.length..]));
      } else {
        RedactedIsQuiet(t[1..]);
        RedactShortensRuns(t[1..]);
        assert Redact(t)[1..] == Redact(t[1..]);
      }
    }
  }

  /** No run of eight digits survives; text without one is left alone, and only such text is. */
  lemma {:induction false} RedactionIsComplete(s: string)
    ensures NoLong(Redact(s))
    ensures Redact(s) == s <==> NoLong(s)
    ensures Redact(Redact(s)) == Redact(s)
  {
    RedactedIsQuiet(s);
    var r := Redact(s);
    assert r[0..] == r && s[0..] == s;
    QuietMeansNoLong(r, 0);
    assert NoLong(r) by { forall a, b ensures !LongAt(r, a, b) { } }
    NoLongMeansQuiet(r, 0);
    if NoLong(s) { NoLongMeansQuiet(s, 0); }
  }

  // ------------------------------------------------- in plain terms

  /** Eight or more digits with nothing but spaces and dashes between them. */
  predicate LooksLikePhone(w: string) {
    && w != [] && '0' <= w[0] <= '9' && '0' <= w[|w| - 1] <= '9'
    && (forall k :: 0 <= k < |w| ==> '0' <= w[k] <= '9' || w[k] == ' ' || w[k] == '-')
    && Digits(w) >= 8
  }

  lemma {:induction false} PhoneIsLong(s: string, i: nat, j: nat)
    requires i <= j <= |s| && LooksLikePhone(s[i..j])
    ensures LongAt(s, i, j)
  {
    forall k | 0 <= k < j - i ensures IsClusterChar(s[i..j][k]) { assert s[i..j][k] in {' ', '-'} || '0' <= s[i..j][k] <= '9'; }
  }

  /** No phone number is left in what is shown. */
  lemma {:induction false} NoPhoneSurvives(s: string, i: nat, j: nat)
    requires i <= j <= |Redact(s)|
    ensures !LooksLikePhone(Redact(s)[i..j])
  {
    RedactionIsComplete(s);
    if LooksLikePhone(Redact(s)[i..j]) { PhoneIsLong(Redact(s), i, j); }
  }

  /** A text with at most seven digits is shown as it is. */
  lemma {:induction false} FewDigitsAreKept(s: string)
    requires Digits(s) <= 7
    ensures Redact(s) == s
  {
    assert s[0..|s|] == s;
    forall i, j ensures !LongAt(s, i, j) { if LongAt(s, i, j) { DigitsMonotone(s, 0, i, j, |s|); } }
    RedactionIsComplete(s);
  }

  /** A printable character that is neither a digit nor a dash. */
  predicate Parts(c: char) { '!' <= c <= '~' && c != '-' && !('0' <= c <= '9') }

  lemma {:induction false} GroupStops(a: string, c: char, b: string)
    requires Parts(c)
    ensures Group(a + ([c] + b)) == Group(a)
  {
    if a == [] {
      assert a + ([c] + b) == [c] + b;
    } else {
      assert (a + ([c] + b))[1..] == a[1..] + ([c] + b);
      GroupStops(a[1..], c, b);
    }
  }

  lemma {:induction false} GroupsStop(a: string, c: char, b: string)
    requires Parts(c)
    ensures Groups(a + ([c] + b)) == Groups(a)
    decreases |a|
  {
    GroupStops(a, c, b);
    GroupBounds(a);
    if Group(a).Some? {
      var n := Group(a).value;
      assert (a + ([c] + b))[n..] == a[n..] + ([c] + b);
      GroupsStop(a[n..], c, b);
    }
  }

  /** A letter, a dot or a slash between digits keeps them apart: each side is redacted on its own. */
  lemma {:induction false} RedactionIsLocal(a: string, c: char, b: string)
    requires Parts(c)
    ensures Redact(a + ([c] + b)) == Redact(a) + ([c] + Redact(b))
    decreases |a|
  {
    var s := a + ([c] + b);
    if a == [] {
      assert s == [c] + b && s[1..] == b;
      assert Redact([c] + b) == [c] + Redact(b);
    } else {
      assert s[1..] == a[1..] + ([c] + b);
      GroupsStop(a[1..], c, b);
      GroupsBounds(a[1..]);
      var n := Groups(a[1..]).length;
      if IsDigit(a[0]) && Groups(a[1..]).count >= RUN - 1 {
        var rest := a[1..][n..];
        assert s[1..][n..] == rest + ([c] + b);
        RedactionIsLocal(rest, c, b);
        Joined(REDACTED, Redact(rest), [c] + Redact(b));
      } else {
        RedactionIsLocal(a[1..], c, b);
        Joined([a[0]], Redact(a[1..]), [c] + Redact(b));
      }
    }
  }

  lemma {:induction false} Joined(x: string, y: string, z: string)
    ensures x + (y + z) == (x + y) + z
  {
  }
}
