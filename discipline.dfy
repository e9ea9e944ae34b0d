/** `disciplineInfo`: a paper's free-text discipline picks its colour and the
    radial scale of its orbit from an ordered keyword table, first match
    winning, after lower-casing. */
module Discipline {
  import opened JsText

  datatype Rgb = Rgb(r: int, g: int, b: int)

  datatype DiscInfo = DiscInfo(color: Rgb, scale: real)

  /** One row of an ordered keyword table: if any keyword occurs, the row wins. */
  datatype Rule<T> = Rule(keywords: seq<string>, result: T)

  predicate ContainsAny(d: string, words: seq<string>) {
    exists w :: w in words && Contains(d, w)
  }

  /** A keyword list splits into its head and the rest. */
  lemma ContainsAnyCons(d: string, w: string, rest: seq<string>)
    ensures ContainsAny(d, [w] + rest) <==> Contains(d, w) || ContainsAny(d, rest)
  {
    if Contains(d, w) {
      assert w in [w] + rest;
    }
    if ContainsAny(d, rest) {
      var v :| v in rest && Contains(d, v);
      assert v in [w] + rest;
    }
  }

  lemma ContainsAnyEmpty(d: string)
    ensures !ContainsAny(d, [])
  {
  }

  /** Reference reading of an ordered keyword table: the result of the first
      row one of whose keywords occurs in d, else the fallback. */
  function FirstMatch<T>(rules: seq<Rule<T>>, d: string, fallback: T): T {
    if rules == [] then fallback
    else if ContainsAny(d, rules[0].keywords) then rules[0].result
    else FirstMatch(rules[1..], d, fallback)
  }

  lemma FirstMatchCons<T>(r: Rule<T>, rest: seq<Rule<T>>, d: string, fallback: T)
    ensures FirstMatch([r] + rest, d, fallback) ==
            if ContainsAny(d, r.keywords) then r.result else FirstMatch(rest, d, fallback)
  {
    assert ([r] + rest)[1..] == rest;
  }

  /** First match wins: the fallback is returned when no row matches. */
  lemma {:induction false} FirstMatchNone<T>(rules: seq<Rule<T>>, d: string, fallback: T)
    requires forall i :: 0 <= i < |rules| ==> !ContainsAny(d, rules[i].keywords)
    ensures FirstMatch(rules, d, fallback) == fallback
  {
    if rules != [] {
      assert !ContainsAny(d, rules[0].keywords);
      forall i | 0 <= i < |rules[1..]|
        ensures !ContainsAny(d, rules[1..][i].keywords)
      {
        assert rules[1..][i] == rules[i + 1];
      }
      FirstMatchNone(rules[1..], d, fallback);
    }
  }

  /** First match wins: the result comes from the earliest matching row. */
  lemma {:induction false} FirstMatchIsEarliest<T>(rules: seq<Rule<T>>, d: string, fallback: T, i: nat)
    requires i < |rules| && ContainsAny(d, rules[i].keywords)
    requires forall j :: 0 <= j < i ==> !ContainsAny(d, rules[j].keywords)
    ensures FirstMatch(rules, d, fallback) == rules[i].result
  {
    if i > 0 {
      assert !ContainsAny(d, rules[0].keywords);
      forall j | 0 <= j < i - 1
        ensures !ContainsAny(d, rules[1..][j].keywords)
      {
        assert rules[1..][j] == rules[j + 1];
      }
      assert rules[1..][i - 1] == rules[i];
      FirstMatchIsEarliest(rules[1..], d, fallback, i - 1);
    }
  }

  const MEDIA_INFO := DiscInfo(Rgb(140, 180, 255), 0.95)
  const GENDER_INFO := DiscInfo(Rgb(255, 170, 120), 1.00)
  const EDUCATION_INFO := DiscInfo(Rgb(120, 230, 190), 1.08)
  const THEORY_INFO := DiscInfo(Rgb(210, 180, 255), 1.15)
  const SOCIAL_INFO := DiscInfo(Rgb(255, 230, 150), 1.22)
  const ART_INFO := DiscInfo(Rgb(255, 140, 220), 1.10)
  const DEFAULT_INFO := DiscInfo(Rgb(200, 200, 200), 1.18)

  /** The classification table as data, in the order the code tests it. */
  const DISCIPLINE_TABLE: seq<Rule<DiscInfo>> := [
    Rule(["media"], MEDIA_INFO),
    Rule(["gender", "body"], GENDER_INFO),
    Rule(["education", "communication"], EDUCATION_INFO),
    Rule(["theory", "philosophy", "critical"], THEORY_INFO),
    Rule(["sociology", "social", "political", "culture", "cultural", "policy", "polic"], SOCIAL_INFO),
    Rule(["art", "aesthetics"], ART_INFO)
  ]

  /** `disciplineInfo(discRaw)`. */
  function DisciplineInfo(discRaw: string): (r: DiscInfo)
    ensures 0.95 <= r.scale <= 1.22
    ensures r.scale == 0.95 <==> Contains(ToLower(discRaw), "media")
  {
    var d := ToLower(discRaw);
    if Contains(d, "media") then MEDIA_INFO
    else if Contains(d, "gender") || Contains(d, "body") then GENDER_INFO
    else if Contains(d, "education") || Contains(d, "communication") then EDUCATION_INFO
    else if Contains(d, "theory") || Contains(d, "philosophy") || Contains(d, "critical") then THEORY_INFO
    else if Contains(d, "sociology") || Contains(d, "social") || Contains(d, "political") ||
            Contains(d, "culture") || Contains(d, "cultural") || Contains(d, "policy") ||
            Contains(d, "polic") then SOCIAL_INFO
    else if Contains(d, "art") || Contains(d, "aesthetics") then ART_INFO
    else DEFAULT_INFO
  }

  lemma ContainsAny1(d: string, a: string)
    ensures ContainsAny(d, [a]) <==> Contains(d, a)
  {
    ContainsAnyEmpty(d);
    ContainsAnyCons(d, a, []);
    assert [a] == [a] + [];
  }

  lemma ContainsAny2(d: string, a: string, b: string)
    ensures ContainsAny(d, [a, b]) <==> Contains(d, a) || Contains(d, b)
  {
    ContainsAny1(d, b);
    ContainsAnyCons(d, a, [b]);
    assert [a, b] == [a] + [b];
  }

  lemma ContainsAny3(d: string, a: string, b: string, c: string)
    ensures ContainsAny(d, [a, b, c]) <==> Contains(d, a) || Contains(d, b) || Contains(d, c)
  {
    ContainsAny2(d, b, c);
    ContainsAnyCons(d, a, [b, c]);
    assert [a, b, c] == [a] + [b, c];
  }

  lemma ContainsAny5(d: string, a: string, b: string, c: string, e: string, f: string)
    ensures ContainsAny(d, [a, b, c, e, f]) <==>
              Contains(d, a) || Contains(d, b) || Contains(d, c) || Contains(d, e) || Contains(d, f)
  {
    ContainsAny3(d, c, e, f);
    ContainsAnyCons(d, b, [c, e, f]);
    assert [b, c, e, f] == [b] + [c, e, f];
    ContainsAnyCons(d, a, [b, c, e, f]);
    assert [a, b, c, e, f] == [a] + [b, c, e, f];
  }

  lemma ContainsAny7(d: string, a: string, b: string, c: string, e: string, f: string, g: string, k: string)
    ensures ContainsAny(d, [a, b, c, e, f, g, k]) <==>
              Contains(d, a) || Contains(d, b) || Contains(d, c) || Contains(d, e) ||
              Contains(d, f) || Contains(d, g) || Contains(d, k)
  {
    ContainsAny5(d, c, e, f, g, k);
    ContainsAnyCons(d, b, [c, e, f, g, k]);
    assert [b, c, e, f, g, k] == [b] + [c, e, f, g, k];
    ContainsAnyCons(d, a, [b, c, e, f, g, k]);
    assert [a, b, c, e, f, g, k] == [a] + [b, c, e, f, g, k];
  }

  /** The if-chain of `disciplineInfo` reads the table in order, first match winning. */
  lemma DisciplineInfoIsFirstMatch(discRaw: string)
    ensures DisciplineInfo(discRaw) == FirstMatch(DISCIPLINE_TABLE, ToLower(discRaw), DEFAULT_INFO)
  {
    var d := ToLower(discRaw);
    var t := DISCIPLINE_TABLE;
    ContainsAny1(d, "media");
    ContainsAny2(d, "gender", "body");
    ContainsAny2(d, "education", "communication");
    ContainsAny3(d, "theory", "philosophy", "critical");
    ContainsAny7(d, "sociology", "social", "political", "culture", "cultural", "policy", "polic");
    ContainsAny2(d, "art", "aesthetics");
    var t5 := [t[5]];
    var t4 := [t[4]] + t5;
    var t3 := [t[3]] + t4;
    var t2 := [t[2]] + t3;
    var t1 := [t[1]] + t2;
    assert t == [t[0]] + t1;
    FirstMatchCons(t[5], [], d, DEFAULT_INFO);
    assert t5 == [t[5]] + [];
    FirstMatchCons(t[4], t5, d, DEFAULT_INFO);
    FirstMatchCons(t[3], t4, d, DEFAULT_INFO);
    FirstMatchCons(t[2], t3, d, DEFAULT_INFO);
    FirstMatchCons(t[1], t2, d, DEFAULT_INFO);
    FirstMatchCons(t[0], t1, d, DEFAULT_INFO);
  }

  /** Case does not matter: only the lower-cased text is consulted. */
  lemma DisciplineInfoIgnoresCase(a: string, b: string)
    requires ToLower(a) == ToLower(b)
    ensures DisciplineInfo(a) == DisciplineInfo(b)
  {
  }
}
