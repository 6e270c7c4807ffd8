/** Which rule a text hits, and which number becomes its parameter, told on the text itself. */
module RuleParam {
  import opened Bytes
  import opened Text
  import opened RuleBook

  /** The rule is for this duty and its needle is somewhere in the text. */
  ghost predicate Fits(r: Rule, text: seq<int>, duty: int) {
    r.duty in {0, duty} && exists i: nat :: OccursAt(text, r.needle, i)
  }

  /** The book answers with its first rule that fits, and only the parameter can differ from what that rule says. */
  lemma {:induction false} FirstFitting(rules: seq<Rule>, text: seq<int>, duty: int, i: nat)
    requires i <= |rules| && forall j | 0 <= j < i :: !Fits(rules[j], text, duty)
    ensures i == |rules| ==> FirstHit(rules, text, duty) == None
    ensures i < |rules| && Fits(rules[i], text, duty) ==>
              Applies(rules[i], text, duty) && FirstHit(rules, text, duty) == Some(RuleHit(rules[i], text, duty))
    decreases i
  {
    if i == 0 {
      if rules != [] && Fits(rules[0], text, duty) {
        FitsApplies(rules[0], text, duty);
      }
    } else {
      assert !Fits(rules[0], text, duty);
      FitsApplies(rules[0], text, duty);
      FirstFitting(rules[1..], text, duty, i - 1);
    }
  }

  lemma FitsApplies(r: Rule, text: seq<int>, duty: int)
    ensures Fits(r, text, duty) <==> Applies(r, text, duty)
  {
    var f := FindFrom(text, r.needle, 0);
    if f.Some? {
      assert OccursAt(text, r.needle, f.value);
    }
  }

  predicate Blanks(s: seq<int>) {
    forall i | 0 <= i < |s| :: s[i] == 0x20
  }

  /** The text around the first occurrence of a needle: before it, blanks behind it, and what follows them. */
  ghost predicate Split(text: seq<int>, needle: seq<int>, pre: seq<int>, s: seq<int>, tail: seq<int>) {
    && text == pre + needle + s + tail && Blanks(s) && (tail == [] || tail[0] != 0x20)
    && forall i: nat | i < |pre| :: !OccursAt(text, needle, i)
  }

  lemma SplitFound(text: seq<int>, needle: seq<int>, pre: seq<int>, s: seq<int>, tail: seq<int>, p: nat, a: nat, b: nat)
    requires Split(text, needle, pre, s, tail) && p == |pre| && a == p + |needle| && b == a + |s|
    ensures b <= |text| && text[b..] == tail
    ensures FindFrom(text, needle, 0) == Some(p) && SkipSpaces(text, a) == b
  {
    Placed(text, needle, pre, s, tail, p, a, b);
    Scanned(text, needle, p, a, b);
  }

  lemma Placed(text: seq<int>, needle: seq<int>, pre: seq<int>, s: seq<int>, tail: seq<int>, p: nat, a: nat, b: nat)
    requires text == pre + needle + s + tail && p == |pre| && a == p + |needle| && b == a + |s|
    ensures b <= |text| && text[p..a] == needle && text[b..] == tail && (tail != [] ==> text[b] == tail[0])
    ensures forall k | a <= k < b :: text[k] == s[k - a]
  {
  }

  lemma Scanned(text: seq<int>, needle: seq<int>, p: nat, a: nat, b: nat)
    requires a == p + |needle| <= b <= |text| && text[p..a] == needle && forall i: nat | i < p :: !OccursAt(text, needle, i)
    requires (forall k | a <= k < b :: text[k] == 0x20) && (b < |text| ==> text[b] != 0x20)
    ensures FindFrom(text, needle, 0) == Some(p) && SkipSpaces(text, a) == b
  {
    FoundFirst(text, needle, p);
    SkipTo(text, a, b);
  }

  lemma {:induction false} SkipTo(text: seq<int>, a: nat, b: nat)
    requires a <= b <= |text| && (forall k | a <= k < b :: text[k] == 0x20) && (b < |text| ==> text[b] != 0x20)
    ensures SkipSpaces(text, a) == b
    decreases b - a
  {
    if a < b {
      SkipTo(text, a + 1, b);
    }
  }

  /** The number n written behind the needle, after any blanks, becomes the parameter of the hit. */
  lemma NumberBehind(r: Rule, text: seq<int>, duty: int, pre: seq<int>, s: seq<int>, n: nat, rest: seq<int>)
    requires r.duty in {0, duty} && r.param != 0
    requires text == pre + r.needle + s + Dec(n) + rest && Blanks(s) && !StartsWithDigit(rest)
    requires forall i: nat | i < |pre| :: !OccursAt(text, r.needle, i)
    ensures Applies(r, text, duty) && RuleHit(r, text, duty) == Hit(r.value, n, r.a1, r.conf)
  {
    var b := |pre| + |r.needle| + |s|;
    Regroup(pre + r.needle + s, Dec(n), rest, text);
    assert IsDigit(Dec(n)[0]);
    SplitFound(text, r.needle, pre, s, Dec(n) + rest, |pre|, |pre| + |r.needle|, b);
    DecimalBehind(text, b, n, rest);
    HitWith(r, text, duty, |pre|, b, Dec(n), n);
  }

  lemma HitWith(r: Rule, text: seq<int>, duty: int, p: nat, b: nat, digits: seq<int>, n: nat)
    requires r.duty in {0, duty} && r.param != 0 && FindFrom(text, r.needle, 0) == Some(p)
    requires p + |r.needle| <= |text| && SkipSpaces(text, p + |r.needle|) == b
    requires text[b..DigitsEnd(text, b)] == digits && AllDigits(digits) && digits != [] && Decimal(digits) == n
    ensures Applies(r, text, duty) && RuleHit(r, text, duty) == Hit(r.value, n, r.a1, r.conf)
  {
  }

  lemma Regroup(front: seq<int>, digits: seq<int>, rest: seq<int>, text: seq<int>)
    requires text == front + digits + rest && digits != []
    ensures text == front + (digits + rest) && (digits + rest)[0] == digits[0]
  {
  }

  /** Without a digit there, or without the parameter flag, the hit has the rule's own number. */
  lemma OwnNumber(r: Rule, text: seq<int>, duty: int, pre: seq<int>, s: seq<int>, tail: seq<int>)
    requires r.duty in {0, duty} && Split(text, r.needle, pre, s, tail)
    requires r.param == 0 || !StartsWithDigit(tail)
    ensures Applies(r, text, duty) && RuleHit(r, text, duty) == Hit(r.value, r.a0, r.a1, r.conf)
  {
    var b := |pre| + |r.needle| + |s|;
    SplitFound(text, r.needle, pre, s, tail, |pre|, |pre| + |r.needle|, b);
    if b < |text| {
      assert text[b] == tail[0];
    }
  }

  /** The reference semantics and the kernel's, on a book whose first fitting rule is rule i. */
  lemma ParameterOf(rules: seq<Rule>, table: seq<KRule>, text: seq<ascii>, duty: u64, i: nat, pre: seq<int>, s: seq<int>, n: nat, rest: seq<int>)
    requires CompilableBook(rules) && i < |rules| && i < 64 && LoadTable(Compile(rules).value) == Some(table)
    requires forall j | 0 <= j < i :: !Fits(rules[j], text, duty)
    requires rules[i].duty in {0, duty} && rules[i].param != 0
    requires text == pre + rules[i].needle + s + Dec(n) + rest && Blanks(s) && !StartsWithDigit(rest)
    requires forall k: nat | k < |pre| :: !OccursAt(text, rules[i].needle, k)
    ensures var r, kernel := rules[i], Match(table, text, duty);
            && FirstHit(rules, text, duty) == Some(Hit(r.value, n, r.a1, r.conf))
            && kernel == Some(Hit(r.value, n % 0x1_0000_0000_0000_0000, r.a1, r.conf))
  {
    NumberBehind(rules[i], text, duty, pre, s, n, rest);
    FitsApplies(rules[i], text, duty);
    FirstFitting(rules, text, duty, i);
    LoadedFits(rules, text, duty, i);
    CompilerCorrect(rules, text, duty);
  }

  /** The first fitting rule is found among those that the kernel's table has room for. */
  lemma LoadedFits(rules: seq<Rule>, text: seq<int>, duty: int, i: nat)
    requires i < |rules| && i < 64 && Fits(rules[i], text, duty) && forall j | 0 <= j < i :: !Fits(rules[j], text, duty)
    ensures Applies(rules[i], text, duty) && FirstHit(Loaded(rules), text, duty) == Some(RuleHit(rules[i], text, duty))
  {
    var l := Loaded(rules);
    assert l[i] == rules[i];
    forall j | 0 <= j < i
      ensures !Fits(l[j], text, duty)
    {
      assert l[j] == rules[j];
    }
    FirstFitting(l, text, duty, i);
  }

  /** The same when no number follows: the rule's own parameter, in both. */
  lemma NoParameterOf(rules: seq<Rule>, table: seq<KRule>, text: seq<ascii>, duty: u64, i: nat, pre: seq<int>, s: seq<int>, tail: seq<int>)
    requires CompilableBook(rules) && i < |rules| && i < 64 && LoadTable(Compile(rules).value) == Some(table)
    requires forall j | 0 <= j < i :: !Fits(rules[j], text, duty)
    requires rules[i].duty in {0, duty} && Split(text, rules[i].needle, pre, s, tail)
    requires rules[i].param == 0 || !StartsWithDigit(tail)
    ensures var r := rules[i];
            && FirstHit(rules, text, duty) == Some(Hit(r.value, r.a0, r.a1, r.conf))
            && Match(table, text, duty) == Some(Hit(r.value, r.a0, r.a1, r.conf))
  {
    OwnNumber(rules[i], text, duty, pre, s, tail);
    FitsApplies(rules[i], text, duty);
    FirstFitting(rules, text, duty, i);
    LoadedFits(rules, text, duty, i);
    CompilerCorrect(rules, text, duty);
    OwnFits(rules[i], FirstHit(Loaded(rules), text, duty));
  }

  lemma OwnFits(r: Rule, h: Option<Hit>)
    requires Compilable(r) && h == Some(Hit(r.value, r.a0, r.a1, r.conf))
    ensures Wrapped(h) == h
  {
    WrappedIff(h);
  }

  /** No rule fits: no answer from the book, and none from the kernel. */
  lemma NoneFits(rules: seq<Rule>, table: seq<KRule>, text: seq<ascii>, duty: u64)
    requires CompilableBook(rules) && LoadTable(Compile(rules).value) == Some(table)
    requires forall j | 0 <= j < |rules| :: !Fits(rules[j], text, duty)
    ensures FirstHit(rules, text, duty) == None && Match(table, text, duty) == None
  {
    FirstFitting(rules, text, duty, |rules|);
    var l := Loaded(rules);
    assert forall j | 0 <= j < |l| :: l[j] == rules[j];
    FirstFitting(l, text, duty, |l|);
    CompilerCorrect(rules, text, duty);
  }

  /** A case answered as recorded. */
  predicate AnsweredAs(h: Option<Hit>, c: Case) {
    h.Some? && h.value.value == c.value && h.value.a0 == c.a0 && h.value.a1 == c.a1
  }

  /** The cases among the first n that get an answer, and those that get the recorded one. */
  function Answered(rules: seq<Rule>, cases: seq<Case>, n: nat): set<nat>
    requires n <= |cases|
  {
    set i: nat | i < n && FirstHit(rules, cases[i].text, cases[i].duty).Some?
  }

  function Confirmed(rules: seq<Rule>, cases: seq<Case>, n: nat): set<nat>
    requires n <= |cases|
  {
    set i: nat | i < n && AnsweredAs(FirstHit(rules, cases[i].text, cases[i].duty), cases[i])
  }

  /** The two counters of a simulation are the numbers of those cases. */
  lemma {:induction false} CountersMean(rules: seq<Rule>, cases: seq<Case>, n: nat)
    requires n <= |cases|
    ensures CountCovered(rules, cases[..n]) == |Answered(rules, cases, n)|
    ensures CountKept(rules, cases[..n]) == |Confirmed(rules, cases, n)|
  {
    if n == 0 {
      assert Answered(rules, cases, 0) == {} && Confirmed(rules, cases, 0) == {};
    } else {
      var c := cases[n - 1];
      CountersMean(rules, cases, n - 1);
      assert cases[..n][..n - 1] == cases[..n - 1];
      OneMore(Answered(rules, cases, n - 1), Answered(rules, cases, n), n, FirstHit(rules, c.text, c.duty).Some?);
      OneMore(Confirmed(rules, cases, n - 1), Confirmed(rules, cases, n), n, AnsweredAs(FirstHit(rules, c.text, c.duty), c));
    }
  }

  lemma OneMore(a: set<nat>, b: set<nat>, n: nat, last: bool)
    requires n > 0 && (forall i <- a :: i < n - 1)
    requires forall i: nat :: i in b <==> i in a || (i == n - 1 && last)
    ensures |b| == |a| + if last then 1 else 0
  {
    assert b == a + if last then {n - 1} else {};
  }

  /** "kill task 2" names task 2, and "kill task" the rule's own task. */
  lemma KillTaskExample(r: Rule, text: seq<ascii>, bare: seq<ascii>)
    requires bare == [0x6B, 0x69, 0x6C, 0x6C, 0x20, 0x74, 0x61, 0x73, 0x6B] && text == bare + [0x20, 0x32]
    requires r == Rule(3, bare, 1, 0, 0, 90, 1)
    ensures FirstHit([r], text, 3) == Some(Hit(1, 2, 0, 90)) && FirstHit([r], bare, 3) == Some(Hit(1, 0, 0, 90))
  {
    assert text == [] + bare + [0x20] + Dec(2) + [];
    NumberBehind(r, text, 3, [], [0x20], 2, []);
    assert bare == [] + bare + [] + [];
    OwnNumber(r, bare, 3, [], [], []);
  }
}
