/** Discriminative rule induction: `word_needles`, `induce` and the two simulations of `tools/induct_rules.py`. */
module RuleInduction {
  import opened Bytes

  datatype Case = Case(duty: int, text: string, value: int, a0: int, a1: int, conf: int)

  datatype Neg = Neg(duty: int, text: string)

  datatype Rule = Rule(duty: int, needle: string, value: int, a0: int, a1: int, conf: int)

  // ---- strings: `in`, `split(" ")` and `" ".join` ----

  /** `needle in text` */
  predicate Contains(text: string, needle: string) {
    exists i | 0 <= i <= |text| :: PrefixAt(text, i, needle)
  }

  predicate PrefixAt(text: string, i: nat, needle: string) {
    i + |needle| <= |text| && text[i..i + |needle|] == needle
  }

  function Split(s: string): (ws: seq<string>)
    ensures ws != []
  {
    if s == "" then [""]
    else
      var rest := Split(s[1..]);
      if s[0] == ' ' then [""] + rest else [[s[0]] + rest[0]] + rest[1..]
  }

  function Join(ws: seq<string>): string
    requires ws != []
  {
    if |ws| == 1 then ws[0] else ws[0] + " " + Join(ws[1..])
  }

  lemma {:induction false} JoinSplit(s: string)
    ensures Join(Split(s)) == s
  {
    if s != "" {
      JoinSplit(s[1..]);
      var rest := Split(s[1..]);
      if s[0] == ' ' {
        assert ([""] + rest)[1..] == rest;
      } else {
        assert ([[s[0]] + rest[0]] + rest[1..])[1..] == rest[1..];
      }
    }
  }

  /** A run of consecutive words, joined, occurs in the joined text. */
  lemma {:induction false} JoinSlice(ws: seq<string>, i: nat, j: nat) returns (at: nat)
    requires i < j <= |ws|
    ensures PrefixAt(Join(ws), at, Join(ws[i..j]))
  {
    if i > 0 {
      var k := JoinSlice(ws[1..], i - 1, j - 1);
      assert ws[1..][i - 1..j - 1] == ws[i..j];
      at := |ws[0]| + 1 + k;
      assert Join(ws)[|ws[0]| + 1..] == Join(ws[1..]);
    } else {
      JoinPrefix(ws, j);
      at := 0;
      assert ws[0..j] == ws[..j];
    }
  }

  lemma {:induction false} JoinPrefix(ws: seq<string>, j: nat)
    requires 0 < j <= |ws|
    ensures PrefixAt(Join(ws), 0, Join(ws[..j]))
  {
    if |ws| > 1 {
      if j == 1 {
        assert ws[..1] == [ws[0]];
      } else {
        JoinPrefix(ws[1..], j - 1);
        assert ws[..j][1..] == ws[1..][..j - 1];
        assert Join(ws)[..|ws[0]| + 1] == ws[0] + " ";
        assert Join(ws)[|ws[0]| + 1..] == Join(ws[1..]);
      }
    }
  }

  // ---- candidates ----

  /** s is one of the needles that `word_needles` yields: 1 to maxspan consecutive words, long enough. */
  ghost predicate IsWordNeedle(text: string, s: string, minlen: int, maxspan: nat) {
    exists i: nat, span: nat ::
      1 <= span <= maxspan && i + span <= |Split(text)| && s == WordRun(text, i, span) && |s| >= minlen
  }

  function WordRun(text: string, i: nat, span: nat): string
    requires 1 <= span && i + span <= |Split(text)|
  {
    Join(Split(text)[i..i + span])
  }

  lemma WordNeedleOccurs(text: string, s: string, minlen: int, maxspan: nat)
    requires IsWordNeedle(text, s, minlen, maxspan)
    ensures Contains(text, s)
  {
    var i: nat, span: nat :|
      1 <= span <= maxspan && i + span <= |Split(text)| && s == WordRun(text, i, span) && |s| >= minlen;
    JoinSplit(text);
    var at := JoinSlice(Split(text), i, i + span);
  }

  lemma WholeTextOccurs(text: string)
    ensures Contains(text, text)
  {
    assert PrefixAt(text, 0, text);
  }

  /** `bad`: the needle hits a negative of the duty, or a case of the duty with another value. */
  predicate Bad(cases: seq<Case>, negs: seq<Neg>, needle: string, duty: int, value: int) {
    || (exists i | 0 <= i < |negs| :: negs[i].duty == duty && Contains(negs[i].text, needle))
    || (exists i | 0 <= i < |cases| ::
          cases[i].duty == duty && Contains(cases[i].text, needle) && cases[i].value != value)
  }

  /** The case has a discriminating needle, so no fallback to its whole text is needed. */
  ghost predicate Separable(cases: seq<Case>, negs: seq<Neg>, c: Case, minlen: int) {
    exists s :: IsWordNeedle(c.text, s, minlen, 3) && !Bad(cases, negs, s, c.duty, c.value)
  }

  predicate Usable(cases: seq<Case>, negs: seq<Neg>, c: Case, minlen: int, s: string) {
    |s| >= minlen && !Bad(cases, negs, s, c.duty, c.value)
  }

  /** The first usable candidate of the generator, which yields single words first, then pairs, then triples: from the
      run of `span` words at word i on. */
  function FirstNeedle(cases: seq<Case>, negs: seq<Neg>, c: Case, minlen: int, span: nat, i: nat): (r: Option<string>)
    requires 1 <= span <= 4
    decreases 4 - span, |Split(c.text)| + 1 - i
  {
    if span > 3 then None
    else if i + span > |Split(c.text)| then FirstNeedle(cases, negs, c, minlen, span + 1, 0)
    else if Usable(cases, negs, c, minlen, WordRun(c.text, i, span)) then Some(WordRun(c.text, i, span))
    else FirstNeedle(cases, negs, c, minlen, span, i + 1)
  }

  /** A candidate is found exactly when there is a discriminating one. */
  lemma {:induction false} FirstNeedleFound(cases: seq<Case>, negs: seq<Neg>, c: Case, minlen: int, span: nat, i: nat)
    requires 1 <= span <= 4
    ensures var r := FirstNeedle(cases, negs, c, minlen, span, i);
            && (r.Some? ==> IsWordNeedle(c.text, r.value, minlen, 3) && Usable(cases, negs, c, minlen, r.value))
            && (r.None? ==> forall d: nat, j: nat | span <= d <= 3 && j + d <= |Split(c.text)| && (d == span ==> i <= j) ::
                              !Usable(cases, negs, c, minlen, WordRun(c.text, j, d)))
    decreases 4 - span, |Split(c.text)| + 1 - i
  {
    if span <= 3 {
      if i + span > |Split(c.text)| {
        FirstNeedleFound(cases, negs, c, minlen, span + 1, 0);
      } else if !Usable(cases, negs, c, minlen, WordRun(c.text, i, span)) {
        FirstNeedleFound(cases, negs, c, minlen, span, i + 1);
      }
    }
  }

  /** The loop of `induce` over the generator: the first candidate that is not bad. */
  method Choose(cases: seq<Case>, negs: seq<Neg>, c: Case, minlen: int) returns (chosen: Option<string>)
    ensures chosen == FirstNeedle(cases, negs, c, minlen, 1, 0)
    ensures chosen.Some? ==>
              IsWordNeedle(c.text, chosen.value, minlen, 3) && !Bad(cases, negs, chosen.value, c.duty, c.value)
    ensures chosen.None? ==> !Separable(cases, negs, c, minlen)
  {
    FirstNeedleFound(cases, negs, c, minlen, 1, 0);
    var words := Split(c.text);
    var n := |words|;
    var span := 1;
    while span <= 3
      invariant 1 <= span <= 4
      invariant FirstNeedle(cases, negs, c, minlen, 1, 0) == FirstNeedle(cases, negs, c, minlen, span, 0)
    {
      var i := 0;
      while i + span <= n
        invariant FirstNeedle(cases, negs, c, minlen, 1, 0) == FirstNeedle(cases, negs, c, minlen, span, i)
      {
        var s := WordRun(c.text, i, span);
        if |s| >= minlen && !Bad(cases, negs, s, c.duty, c.value) {
          return Some(s);
        }
        i := i + 1;
      }
      span := span + 1;
    }
    return None;
  }

  // ---- induction ----

  predicate Covers(r: Rule, duty: int, text: string) {
    r.duty == duty && Contains(text, r.needle)
  }

  /** Where a rule comes from: a case's discriminating needle, or the whole text of an inseparable one. */
  ghost predicate Justified(cases: seq<Case>, negs: seq<Neg>, minlen: int, r: Rule) {
    exists i | 0 <= i < |cases| ::
      var c := cases[i];
      && r.duty == c.duty && r.value == c.value
      && (|| !Bad(cases, negs, r.needle, c.duty, c.value)
          || (r.needle == c.text && !Separable(cases, negs, c, minlen)))
  }

  ghost predicate CoveredBy(rules: seq<Rule>, duty: int, text: string) {
    exists k | 0 <= k < |rules| :: Covers(rules[k], duty, text)
  }

  ghost predicate AllCovered(rules: seq<Rule>, cases: seq<Case>) {
    forall i | 0 <= i < |cases| :: CoveredBy(rules, cases[i].duty, cases[i].text)
  }

  ghost predicate AllJustified(cases: seq<Case>, negs: seq<Neg>, minlen: int, rules: seq<Rule>) {
    forall k | 0 <= k < |rules| :: Justified(cases, negs, minlen, rules[k])
  }

  /** No two rules of a duty share a needle. */
  ghost predicate DistinctNeedles(rules: seq<Rule>) {
    forall j, k | 0 <= j < k < |rules| :: rules[j].duty != rules[k].duty || rules[j].needle != rules[k].needle
  }

  /** `used_needles` lists the needles of the rules so far. */
  ghost predicate UsedOk(rules: seq<Rule>, used: set<(int, string)>) {
    && (forall k | 0 <= k < |rules| :: (rules[k].duty, rules[k].needle) in used)
    && forall u | u in used :: exists k | 0 <= k < |rules| :: (rules[k].duty, rules[k].needle) == u
  }

  lemma CoverStays(rules: seq<Rule>, r: Rule, cases: seq<Case>)
    requires AllCovered(rules, cases)
    ensures AllCovered(rules + [r], cases)
  {
    forall i | 0 <= i < |cases|
      ensures CoveredBy(rules + [r], cases[i].duty, cases[i].text)
    {
      assert CoveredBy(rules, cases[i].duty, cases[i].text);
      var k :| 0 <= k < |rules| && Covers(rules[k], cases[i].duty, cases[i].text);
      assert (rules + [r])[k] == rules[k];
    }
  }

  lemma CoverNext(rules: seq<Rule>, cases: seq<Case>, c: Case)
    requires AllCovered(rules, cases) && CoveredBy(rules, c.duty, c.text)
    ensures AllCovered(rules, cases + [c])
  {
  }

  lemma UsedStep(rules: seq<Rule>, used: set<(int, string)>, r: Rule)
    requires UsedOk(rules, used) && DistinctNeedles(rules) && (r.duty, r.needle) !in used
    ensures UsedOk(rules + [r], used + {(r.duty, r.needle)}) && DistinctNeedles(rules + [r])
  {
    forall u | u in used
      ensures exists k | 0 <= k < |rules + [r]| :: ((rules + [r])[k].duty, (rules + [r])[k].needle) == u
    {
      var k :| 0 <= k < |rules| && (rules[k].duty, rules[k].needle) == u;
      assert (rules + [r])[k] == rules[k];
    }
    assert (rules + [r])[|rules|] == r;
  }

  /** The duty and the needle that `induce` finds for a case. */
  function KeyOf(cases: seq<Case>, negs: seq<Neg>, minlen: int, c: Case): (key: (int, string)) {
    (c.duty, FirstNeedle(cases, negs, c, minlen, 1, 0).GetOr(c.text))
  }

  /** The keys of the first n cases, each where it comes up first. */
  function Keys(cases: seq<Case>, negs: seq<Neg>, minlen: int, n: nat): (keys: seq<(int, string)>)
    requires n <= |cases|
  {
    if n == 0 then []
    else
      var before, key := Keys(cases, negs, minlen, n - 1), KeyOf(cases, negs, minlen, cases[n - 1]);
      if key in before then before else before + [key]
  }

  function RuleKeys(rules: seq<Rule>): (keys: seq<(int, string)>)
    ensures |keys| == |rules|
  {
    seq(|rules|, k requires 0 <= k < |rules| => (rules[k].duty, rules[k].needle))
  }

  /** A rule's value and arguments come from the first case, among the first n, that has its key. */
  ghost predicate Rooted(cases: seq<Case>, negs: seq<Neg>, minlen: int, n: nat, r: Rule)
    requires n <= |cases|
  {
    exists i | 0 <= i < n :: FirstWith(cases, negs, minlen, i, (r.duty, r.needle)) && BuiltFrom(cases, cases[i], r)
  }

  ghost predicate FirstWith(cases: seq<Case>, negs: seq<Neg>, minlen: int, i: nat, key: (int, string))
    requires i < |cases|
  {
    KeyOf(cases, negs, minlen, cases[i]) == key && forall j | 0 <= j < i :: KeyOf(cases, negs, minlen, cases[j]) != key
  }

  /** The rules for the first n cases, in the order of their keys. */
  ghost predicate BookOf(cases: seq<Case>, negs: seq<Neg>, minlen: int, n: nat, rules: seq<Rule>) {
    && n <= |cases| && RuleKeys(rules) == Keys(cases, negs, minlen, n)
    && forall r <- rules :: Rooted(cases, negs, minlen, n, r)
  }

  lemma {:induction false} KeysHave(cases: seq<Case>, negs: seq<Neg>, minlen: int, n: nat, j: nat)
    requires j < n <= |cases|
    ensures KeyOf(cases, negs, minlen, cases[j]) in Keys(cases, negs, minlen, n)
  {
    if j < n - 1 {
      KeysHave(cases, negs, minlen, n - 1, j);
    }
  }

  lemma RootedLater(cases: seq<Case>, negs: seq<Neg>, minlen: int, n: nat, r: Rule)
    requires n < |cases| && Rooted(cases, negs, minlen, n, r)
    ensures Rooted(cases, negs, minlen, n + 1, r)
  {
  }

  /** The next case, whose key is new, roots a rule. */
  lemma NewlyRooted(cases: seq<Case>, negs: seq<Neg>, minlen: int, n: nat, r: Rule)
    requires n < |cases| && BuiltFrom(cases, cases[n], r) && KeyOf(cases, negs, minlen, cases[n]) == (r.duty, r.needle)
    requires (r.duty, r.needle) !in Keys(cases, negs, minlen, n)
    ensures Rooted(cases, negs, minlen, n + 1, r)
  {
    forall j | 0 <= j < n
      ensures KeyOf(cases, negs, minlen, cases[j]) != (r.duty, r.needle)
    {
      KeysHave(cases, negs, minlen, n, j);
    }
    assert FirstWith(cases, negs, minlen, n, (r.duty, r.needle));
  }

  lemma BookStays(cases: seq<Case>, negs: seq<Neg>, minlen: int, n: nat, rules: seq<Rule>)
    requires n < |cases| && BookOf(cases, negs, minlen, n, rules)
    requires KeyOf(cases, negs, minlen, cases[n]) in Keys(cases, negs, minlen, n)
    ensures BookOf(cases, negs, minlen, n + 1, rules)
  {
    forall r | r in rules
      ensures Rooted(cases, negs, minlen, n + 1, r)
    {
      RootedLater(cases, negs, minlen, n, r);
    }
  }

  lemma BookGrows(cases: seq<Case>, negs: seq<Neg>, minlen: int, n: nat, rules: seq<Rule>, r: Rule)
    requires n < |cases| && BookOf(cases, negs, minlen, n, rules) && BuiltFrom(cases, cases[n], r)
    requires KeyOf(cases, negs, minlen, cases[n]) == (r.duty, r.needle)
    requires (r.duty, r.needle) !in Keys(cases, negs, minlen, n)
    ensures BookOf(cases, negs, minlen, n + 1, rules + [r])
  {
    assert RuleKeys(rules + [r]) == RuleKeys(rules) + [(r.duty, r.needle)];
    NewlyRooted(cases, negs, minlen, n, r);
    forall x | x in rules + [r]
      ensures Rooted(cases, negs, minlen, n + 1, x)
    {
      if x != r {
        RootedLater(cases, negs, minlen, n, x);
      }
    }
  }

  lemma UsedIsKeys(rules: seq<Rule>, used: set<(int, string)>, key: (int, string))
    requires UsedOk(rules, used)
    ensures key in used <==> key in RuleKeys(rules)
  {
    if key in used {
      var k :| 0 <= k < |rules| && (rules[k].duty, rules[k].needle) == key;
      assert RuleKeys(rules)[k] == key;
    }
  }

  /** What holds once the first n cases are dealt with. */
  ghost predicate Progress(cases: seq<Case>, negs: seq<Neg>, minlen: int, n: nat, rules: seq<Rule>, used: set<(int, string)>) {
    && n <= |cases| && AllCovered(rules, cases[..n]) && AllJustified(cases, negs, minlen, rules)
    && UsedOk(rules, used) && DistinctNeedles(rules) && BookOf(cases, negs, minlen, n, rules)
  }

  lemma ProgressStays(cases: seq<Case>, negs: seq<Neg>, minlen: int, n: nat, rules: seq<Rule>, used: set<(int, string)>)
    requires Progress(cases, negs, minlen, n, rules, used) && n < |cases|
    requires KeyOf(cases, negs, minlen, cases[n]) in used && Contains(cases[n].text, KeyOf(cases, negs, minlen, cases[n]).1)
    ensures Progress(cases, negs, minlen, n + 1, rules, used)
  {
    var key := KeyOf(cases, negs, minlen, cases[n]);
    UsedIsKeys(rules, used, key);
    UsedCovers(rules, used, cases[n], key.1);
    CoverNext(rules, cases[..n], cases[n]);
    BookStays(cases, negs, minlen, n, rules);
    assert cases[..n + 1] == cases[..n] + [cases[n]];
  }

  lemma ProgressGrows(cases: seq<Case>, negs: seq<Neg>, minlen: int, n: nat, rules: seq<Rule>, used: set<(int, string)>,
                      r: Rule)
    requires Progress(cases, negs, minlen, n, rules, used) && n < |cases|
    requires KeyOf(cases, negs, minlen, cases[n]) == (r.duty, r.needle) && (r.duty, r.needle) !in used
    requires BuiltFrom(cases, cases[n], r) && Justified(cases, negs, minlen, r) && Contains(cases[n].text, r.needle)
    ensures Progress(cases, negs, minlen, n + 1, rules + [r], used + {(r.duty, r.needle)})
  {
    UsedIsKeys(rules, used, (r.duty, r.needle));
    UsedStep(rules, used, r);
    CoverStays(rules, r, cases[..n]);
    BookGrows(cases, negs, minlen, n, rules, r);
    assert cases[..n + 1] == cases[..n] + [cases[n]];
    assert Covers((rules + [r])[|rules|], cases[n].duty, cases[n].text);
  }

  /** `induce`: one rule per new needle, in the order of the cases; every case ends up covered and every rule is
      justified. */
  method Induce(cases: seq<Case>, negs: seq<Neg>, minlen: int) returns (rules: seq<Rule>)
    ensures AllCovered(rules, cases) && AllJustified(cases, negs, minlen, rules) && DistinctNeedles(rules)
    ensures BookOf(cases, negs, minlen, |cases|, rules)
  {
    rules := [];
    var used: set<(int, string)> := {};
    for i := 0 to |cases|
      invariant Progress(cases, negs, minlen, i, rules, used)
    {
      var c := cases[i];
      var s := Choose(cases, negs, c, minlen);
      var chosen := if s.Some? then s.value else c.text;
      if s.Some? {
        WordNeedleOccurs(c.text, chosen, minlen, 3);
      } else {
        WholeTextOccurs(c.text);
      }
      if (c.duty, chosen) in used {
        ProgressStays(cases, negs, minlen, i, rules, used);
        continue;
      }
      var r := BuildRule(cases, c, chosen, i);
      assert Justified(cases, negs, minlen, r);
      ProgressGrows(cases, negs, minlen, i, rules, used, r);
      used := used + {(c.duty, chosen)};
      rules := rules + [r];
    }
    assert cases[..|cases|] == cases;
  }

  lemma UsedCovers(rules: seq<Rule>, used: set<(int, string)>, c: Case, needle: string)
    requires UsedOk(rules, used) && (c.duty, needle) in used && Contains(c.text, needle)
    ensures CoveredBy(rules, c.duty, c.text)
  {
    var k :| 0 <= k < |rules| && (rules[k].duty, rules[k].needle) == (c.duty, needle);
    assert Covers(rules[k], c.duty, c.text);
  }

  /** The group of a needle: cases of the same duty and value that contain it. */
  predicate InGroup(x: Case, c: Case, needle: string) {
    x.duty == c.duty && x.value == c.value && Contains(x.text, needle)
  }

  function CountPair(cases: seq<Case>, c: Case, needle: string, a0: int, a1: int): nat {
    if cases == [] then 0
    else
      var x := cases[|cases| - 1];
      CountPair(cases[..|cases| - 1], c, needle, a0, a1)
      + (if InGroup(x, c, needle) && x.a0 == a0 && x.a1 == a1 then 1 else 0)
  }

  /** Member b of the group has the most common pair, and no earlier member's pair is as common. */
  ghost predicate MostCommon(cases: seq<Case>, c: Case, needle: string, b: nat) {
    && b < |cases| && InGroup(cases[b], c, needle)
    && forall j | 0 <= j < |cases| && InGroup(cases[j], c, needle) ::
         var n, m := CountPair(cases, c, needle, cases[j].a0, cases[j].a1),
                     CountPair(cases, c, needle, cases[b].a0, cases[b].a1);
         n <= m && (j < b ==> n < m)
  }

  /** A rule's arguments are the most common pair of its group, the first one on ties, and its confidence is the largest
      of the group. */
  ghost predicate BuiltFrom(cases: seq<Case>, c: Case, r: Rule) {
    && r.duty == c.duty && r.value == c.value
    && (exists b: nat :: MostCommon(cases, c, r.needle, b) && r.a0 == cases[b].a0 && r.a1 == cases[b].a1)
    && (forall j | 0 <= j < |cases| && InGroup(cases[j], c, r.needle) :: cases[j].conf <= r.conf)
    && exists j | 0 <= j < |cases| :: InGroup(cases[j], c, r.needle) && cases[j].conf == r.conf
  }

  /** The rule for a needle. */
  method BuildRule(cases: seq<Case>, c: Case, needle: string, at: nat) returns (r: Rule)
    requires at < |cases| && cases[at] == c && Contains(c.text, needle)
    ensures r.needle == needle && BuiltFrom(cases, c, r)
  {
    var best: Option<nat> := None;
    var conf: Option<nat> := None;
    for i := 0 to |cases|
      invariant best.Some? == conf.Some?
      invariant best.None? ==> forall j | 0 <= j < i :: !InGroup(cases[j], c, needle)
      invariant best.Some? ==>
                  && best.value < i && conf.value < i
                  && InGroup(cases[best.value], c, needle) && InGroup(cases[conf.value], c, needle)
      invariant best.Some? ==> forall j | 0 <= j < i && InGroup(cases[j], c, needle) ::
                  && cases[j].conf <= cases[conf.value].conf
                  && var n, m := CountPair(cases, c, needle, cases[j].a0, cases[j].a1),
                                 CountPair(cases, c, needle, cases[best.value].a0, cases[best.value].a1);
                     n <= m && (j < best.value ==> n < m)
    {
      var x := cases[i];
      if InGroup(x, c, needle) {
        if best.None? || CountPair(cases, c, needle, x.a0, x.a1)
                         > CountPair(cases, c, needle, cases[best.value].a0, cases[best.value].a1) {
          best := Some(i);
        }
        if conf.None? || x.conf > cases[conf.value].conf {
          conf := Some(i);
        }
      }
    }
    assert MostCommon(cases, c, needle, best.value);
    r := Rule(c.duty, needle, c.value, cases[best.value].a0, cases[best.value].a1, cases[conf.value].conf);
  }

  // ---- what the book does ----

  /** First match, as both simulations take it. */
  function FirstMatch(rules: seq<Rule>, duty: int, text: string): (r: Option<Rule>)
    ensures r.Some? ==> r.value in rules && Covers(r.value, duty, text)
    ensures r.None? ==> forall k | 0 <= k < |rules| :: !Covers(rules[k], duty, text)
  {
    if rules == [] then None
    else if Covers(rules[0], duty, text) then Some(rules[0])
    else
      var r := FirstMatch(rules[1..], duty, text);
      assert r.None? ==> forall k | 1 <= k < |rules| :: rules[k] == rules[1..][k - 1];
      r
  }

  /** A rule with a discriminating needle answers cases with their own value and ignores negatives. */
  lemma GoodRule(cases: seq<Case>, negs: seq<Neg>, minlen: int, r: Rule)
    requires Justified(cases, negs, minlen, r)
    requires forall i | 0 <= i < |cases| :: Separable(cases, negs, cases[i], minlen)
    ensures forall i | 0 <= i < |cases| && Covers(r, cases[i].duty, cases[i].text) :: cases[i].value == r.value
    ensures forall i | 0 <= i < |negs| :: !Covers(r, negs[i].duty, negs[i].text)
  {
  }

  /** If no case needed the fallback, first match gives every case its value and no negative any rule. */
  lemma BookDiscriminates(cases: seq<Case>, negs: seq<Neg>, minlen: int, rules: seq<Rule>)
    requires forall i | 0 <= i < |cases| :: Separable(cases, negs, cases[i], minlen)
    requires AllCovered(rules, cases) && AllJustified(cases, negs, minlen, rules)
    ensures forall i | 0 <= i < |cases| ::
              var r := FirstMatch(rules, cases[i].duty, cases[i].text); r.Some? && r.value.value == cases[i].value
    ensures forall i | 0 <= i < |negs| :: FirstMatch(rules, negs[i].duty, negs[i].text).None?
  {
    forall k | 0 <= k < |rules|
      ensures forall i | 0 <= i < |cases| && Covers(rules[k], cases[i].duty, cases[i].text) ::
                cases[i].value == rules[k].value
      ensures forall i | 0 <= i < |negs| :: !Covers(rules[k], negs[i].duty, negs[i].text)
    {
      GoodRule(cases, negs, minlen, rules[k]);
    }
    forall i | 0 <= i < |cases|
      ensures var r := FirstMatch(rules, cases[i].duty, cases[i].text); r.Some? && r.value.value == cases[i].value
    {
      assert CoveredBy(rules, cases[i].duty, cases[i].text);
    }
  }
}
