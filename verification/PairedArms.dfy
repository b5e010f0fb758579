/** Paired generation, interleaved per case, after `evals/paired_arms.py`, beside the solo run of
    `evals/generation_collection.py`. */
module PairedArms {
  import opened Grouping
  import opened Selection

  datatype Case<C> = Yaml(body: C) | AntiHallucination(body: C)

  /** A retrieval profile by name, or none, which leaves the engine its own default. */
  datatype Profile = EngineDefault | Named(name: string)

  /** One collector call: a case, generated once under a profile. */
  datatype Call<C> = Call(subject: Case<C>, rep: nat, profile: Profile)

  // ----- the profiles flag -----

  datatype Parsed = Profiles(names: seq<string>) | TooFew | Repeated

  const MIN_ARMS: nat := 2

  function Split(raw: string): (parts: seq<string>)
    ensures parts != []
  {
    if raw == [] then [[]]
    else
      var rest := Split(raw[1..]);
      if raw[0] == ',' then [[]] + rest else [[raw[0]] + rest[0]] + rest[1..]
  }

  /** The characters Python's `strip` takes off. */
  predicate IsSpace(c: char) {
    var code := c as int;
    || 0x09 <= code <= 0x0d || 0x1c <= code <= 0x20 || code in {0x85, 0xa0, 0x1680}
    || 0x2000 <= code <= 0x200a || code in {0x2028, 0x2029, 0x202f, 0x205f, 0x3000}
  }

  function StripLeft(s: string): string {
    if s != [] && IsSpace(s[0]) then StripLeft(s[1..]) else s
  }

  function StripRight(s: string): string {
    if s != [] && IsSpace(s[|s| - 1]) then StripRight(s[..|s| - 1]) else s
  }

  function Names(parts: seq<string>): seq<string> {
    if parts == [] then []
    else
      var name := StripRight(StripLeft(parts[0]));
      if name == [] then Names(parts[1..]) else [name] + Names(parts[1..])
  }

  predicate AllDistinct(s: seq<string>)
    ensures AllDistinct(s) <==> Distinct(s)
  {
    forall i, j :: 0 <= i < j < |s| ==> s[i] != s[j]
  }

  function ParseProfiles(raw: string): Parsed {
    var names := Names(Split(raw));
    if |names| < MIN_ARMS then TooFew
    else if !AllDistinct(names) then Repeated
    else Profiles(names)
  }

  function Join(names: seq<string>): string {
    if names == [] then "" else if |names| == 1 then names[0] else names[0] + "," + Join(names[1..])
  }

  ghost predicate NoComma(s: string) { forall i :: 0 <= i < |s| ==> s[i] != ',' }

  /** A name that survives splitting and stripping. */
  ghost predicate PlainName(name: string) {
    name != [] && !IsSpace(name[0]) && !IsSpace(name[|name| - 1]) && NoComma(name)
  }

  lemma {:induction false} SplitName(name: string, rest: string)
    requires NoComma(name)
    ensures Split(name) == [name]
    ensures Split(name + "," + rest) == [name] + Split(rest)
  {
    if name == [] {
      assert name + "," + rest == "," + rest && ("," + rest)[1..] == rest;
    } else {
      SplitName(name[1..], rest);
      assert (name + "," + rest)[1..] == name[1..] + "," + rest;
      assert [name[0]] + name[1..] == name;
    }
  }

  lemma {:induction false} SplitJoin(names: seq<string>)
    requires names != [] && forall i :: 0 <= i < |names| ==> PlainName(names[i])
    ensures Split(Join(names)) == names
  {
    if |names| == 1 {
      SplitName(names[0], "");
    } else {
      assert Join(names) == names[0] + "," + Join(names[1..]);
      SplitName(names[0], Join(names[1..]));
      SplitJoin(names[1..]);
    }
  }

  lemma {:induction false} PlainNamesStay(names: seq<string>)
    requires forall i :: 0 <= i < |names| ==> PlainName(names[i])
    ensures Names(names) == names
  {
    if names != [] { PlainNamesStay(names[1..]); }
  }

  lemma {:induction false} SplitHasNoComma(raw: string)
    ensures forall i :: 0 <= i < |Split(raw)| ==> NoComma(Split(raw)[i])
  {
    if raw != [] { SplitHasNoComma(raw[1..]); }
  }

  lemma {:induction false} StrippedLeft(s: string)
    ensures var r := StripLeft(s);
            (NoComma(s) ==> NoComma(r)) && (r != [] ==> !IsSpace(r[0]))
  {
    if s != [] && IsSpace(s[0]) { StrippedLeft(s[1..]); }
  }

  lemma {:induction false} StrippedRight(s: string)
    ensures var r := StripRight(s);
            && (NoComma(s) ==> NoComma(r)) && r <= s
            && (r != [] ==> !IsSpace(r[|r| - 1]))
  {
    if s != [] && IsSpace(s[|s| - 1]) { StrippedRight(s[..|s| - 1]); }
  }

  lemma {:induction false} NamesArePlain(parts: seq<string>)
    requires forall i :: 0 <= i < |parts| ==> NoComma(parts[i])
    ensures forall i :: 0 <= i < |Names(parts)| ==> PlainName(Names(parts)[i])
  {
    if parts != [] {
      NamesArePlain(parts[1..]);
      StrippedLeft(parts[0]);
      StrippedRight(StripLeft(parts[0]));
    }
  }

  /** MAIN. A list of names, joined by commas, is read back as given exactly when it forms a paired design: at
      least two names, none repeated, none empty, with a comma, or with white space at an end. */
  lemma ProfilesRoundTrip(names: seq<string>)
    ensures ParseProfiles(Join(names)) == Profiles(names) <==>
            |names| >= MIN_ARMS && Distinct(names) && forall i :: 0 <= i < |names| ==> PlainName(names[i])
  {
    if names != [] && forall i :: 0 <= i < |names| ==> PlainName(names[i]) {
      SplitJoin(names);
      PlainNamesStay(names);
    }
    SplitHasNoComma(Join(names));
    NamesArePlain(Split(Join(names)));
  }

  // ----- what a flag is read as -----

  ghost predicate Blank(s: string) { forall i :: 0 <= i < |s| ==> IsSpace(s[i]) }

  /** `name` is the part without the white space around it. */
  ghost predicate IsStripped(part: string, name: string) {
    && (name != [] ==> !IsSpace(name[0]) && !IsSpace(name[|name| - 1]))
    && exists l, r :: Around(part, l, name, r)
  }

  ghost predicate Around(part: string, l: string, name: string, r: string) {
    Blank(l) && Blank(r) && part == l + name + r
  }

  lemma {:induction false} LeftOf(s: string) returns (l: string)
    ensures Blank(l) && s == l + StripLeft(s)
  {
    l := "";
    if s != [] && IsSpace(s[0]) {
      var rest := LeftOf(s[1..]);
      l := [s[0]] + rest;
      assert s == [s[0]] + s[1..];
    }
  }

  lemma {:induction false} RightOf(s: string) returns (r: string)
    ensures Blank(r) && s == StripRight(s) + r
  {
    r := "";
    if s != [] && IsSpace(s[|s| - 1]) {
      var rest := RightOf(s[..|s| - 1]);
      r := rest + [s[|s| - 1]];
      assert s == s[..|s| - 1] + [s[|s| - 1]];
    }
  }

  lemma StripStrips(part: string)
    ensures IsStripped(part, StripRight(StripLeft(part)))
  {
    var inner := StripLeft(part);
    var l := LeftOf(part);
    var r := RightOf(inner);
    StrippedLeft(part);
    StrippedRight(inner);
    assert Around(part, l, StripRight(inner), r);
  }

  lemma {:induction false} SplitJoins(raw: string)
    ensures Join(Split(raw)) == raw
  {
    if raw != [] {
      SplitJoins(raw[1..]);
      var rest := Split(raw[1..]);
      assert raw == [raw[0]] + raw[1..];
      if raw[0] == ',' {
        assert ([[]] + rest)[1..] == rest;
      } else {
        JoinGrows(raw[0], rest);
      }
    }
  }

  lemma JoinGrows(c: char, rest: seq<string>)
    requires rest != []
    ensures Join([[c] + rest[0]] + rest[1..]) == [c] + Join(rest)
  {
    var grown := [[c] + rest[0]] + rest[1..];
    assert grown[1..] == rest[1..];
  }

  function Stripped(parts: seq<string>): seq<string> {
    seq(|parts|, i requires 0 <= i < |parts| => StripRight(StripLeft(parts[i])))
  }

  ghost predicate NonEmpty(name: string) { name != [] }

  lemma {:induction false} NamesSnoc(parts: seq<string>, last: string)
    ensures Names(parts + [last])
         == var name := StripRight(StripLeft(last)); if name == [] then Names(parts) else Names(parts) + [name]
  {
    if parts == [] {
      assert [] + [last] == [last] && [last][1..] == [];
    } else {
      assert (parts + [last])[1..] == parts[1..] + [last];
      NamesSnoc(parts[1..], last);
    }
  }

  lemma {:induction false} NamesAreSelected(parts: seq<string>)
    ensures Selects(Stripped(parts), NonEmpty, Names(parts))
  {
    if parts == [] {
      SelectsNone(NonEmpty);
      assert Stripped(parts) == [];
    } else {
      var front, last := parts[..|parts| - 1], parts[|parts| - 1];
      assert parts == front + [last];
      NamesAreSelected(front);
      NamesSnoc(front, last);
      StrippedSnoc(front, last);
      SelectsSnoc(Stripped(front), StripRight(StripLeft(last)), NonEmpty, Names(front));
    }
  }

  lemma StrippedSnoc(parts: seq<string>, last: string)
    ensures Stripped(parts + [last]) == Stripped(parts) + [StripRight(StripLeft(last))]
  {}

  /** The parts between the commas of the flag, each without the white space around it, and the names left when
      the empty ones are dropped. */
  ghost predicate IsReading(raw: string, parts: seq<string>, stripped: seq<string>, names: seq<string>) {
    && raw == Join(parts) && parts != [] && (forall i :: 0 <= i < |parts| ==> NoComma(parts[i]))
    && |stripped| == |parts| && (forall i :: 0 <= i < |parts| ==> IsStripped(parts[i], stripped[i]))
    && Selects(stripped, NonEmpty, names)
  }

  lemma ReadingOf(raw: string)
    ensures IsReading(raw, Split(raw), Stripped(Split(raw)), Names(Split(raw)))
  {
    var parts := Split(raw);
    SplitJoins(raw);
    SplitHasNoComma(raw);
    NamesAreSelected(parts);
    forall i | 0 <= i < |parts|
      ensures IsStripped(parts[i], Stripped(parts)[i])
    {
      StripStrips(parts[i]);
    }
  }

  /** MAIN. Any flag is read as its names: fewer than two are refused, then a repeated one. */
  lemma ProfilesAreRead(raw: string)
    ensures exists parts, stripped, names ::
              && IsReading(raw, parts, stripped, names)
              && ParseProfiles(raw)
                 == if |names| < 2 then TooFew else if Distinct(names) then Profiles(names) else Repeated
  {
    ReadingOf(raw);
  }

  // ----- the calls a run makes -----

  function Suite<C>(yaml: seq<C>, ah: seq<C>): seq<Case<C>> {
    seq(|yaml| + |ah|, i requires 0 <= i < |yaml| + |ah| =>
      if i < |yaml| then Yaml(yaml[i]) else AntiHallucination(ah[i - |yaml|]))
  }

  /** The calls made when repetition `rep` has done `n` cases, and `m` profiles of the next. */
  function Calls<C>(cases: seq<Case<C>>, profiles: seq<Profile>, rep: nat, n: nat, m: nat): seq<Call<C>>
    requires n <= |cases| && m <= |profiles| && (m > 0 ==> n < |cases|)
    decreases rep, n, m
  {
    if m > 0 then Calls(cases, profiles, rep, n, m - 1) + [Call(cases[n], rep, profiles[m - 1])]
    else if n > 0 then Calls(cases, profiles, rep, n - 1, |profiles|)
    else if rep > 0 then Calls(cases, profiles, rep - 1, |cases|, 0)
    else []
  }

  function AllCalls<C>(cases: seq<Case<C>>, k: nat, profiles: seq<Profile>): seq<Call<C>> {
    Calls(cases, profiles, k, 0, 0)
  }

  function CallsOf<C>(calls: seq<Call<C>>, profile: Profile): seq<Call<C>> {
    if calls == [] then []
    else
      var front := CallsOf(calls[..|calls| - 1], profile);
      if calls[|calls| - 1].profile == profile then front + [calls[|calls| - 1]] else front
  }

  /** What the calls return together; the collectors depend on the call alone. */
  function Records<C, R>(answer: Call<C> -> seq<R>, calls: seq<Call<C>>): seq<R> {
    if calls == [] then [] else Records(answer, calls[..|calls| - 1]) + answer(calls[|calls| - 1])
  }

  /** The engine as the collectors see it: it answers, and keeps a trace of the calls. */
  class Engine<C, R> {
    const answer: Call<C> -> seq<R>
    var trace: seq<Call<C>>

    constructor (answer: Call<C> -> seq<R>)
      ensures this.answer == answer && trace == []
    {
      this.answer := answer;
      trace := [];
    }

    method Collect(subject: Case<C>, rep: nat, profile: Profile) returns (records: seq<R>)
      modifies this
      ensures trace == old(trace) + [Call(subject, rep, profile)]
      ensures records == answer(Call(subject, rep, profile))
    {
      trace := trace + [Call(subject, rep, profile)];
      records := answer(Call(subject, rep, profile));
    }
  }

  lemma RecordsSnoc<C, R>(answer: Call<C> -> seq<R>, calls: seq<Call<C>>, call: Call<C>)
    ensures Records(answer, calls + [call]) == Records(answer, calls) + answer(call)
  {
    assert (calls + [call])[..|calls|] == calls;
  }

  lemma CallsOfSnoc<C>(calls: seq<Call<C>>, call: Call<C>, profile: Profile)
    ensures CallsOf(calls + [call], profile)
         == if call.profile == profile then CallsOf(calls, profile) + [call] else CallsOf(calls, profile)
  {
    assert (calls + [call])[..|calls|] == calls;
  }

  // ----- the two runs -----

  /** The calls since the start, in order, and what they returned. */
  ghost predicate Collected<C, R>(engine: Engine<C, R>, start: seq<Call<C>>, calls: seq<Call<C>>, records: seq<R>)
    reads engine
  {
    engine.trace == start + calls && records == Records(engine.answer, calls)
  }

  method ExtendRecords<C, R>(engine: Engine<C, R>, subject: Case<C>, rep: nat, profile: Profile, records: seq<R>,
                             ghost start: seq<Call<C>>, ghost calls: seq<Call<C>>) returns (after: seq<R>)
    requires Collected(engine, start, calls, records)
    modifies engine
    ensures Collected(engine, start, calls + [Call(subject, rep, profile)], after)
  {
    var got := engine.Collect(subject, rep, profile);
    RecordsSnoc(engine.answer, calls, Call(subject, rep, profile));
    after := records + got;
  }

  method CollectSoloCase<C, R>(engine: Engine<C, R>, subject: Case<C>, rep: nat, profile: Profile, records: seq<R>,
                               ghost suite: seq<Case<C>>, ghost n: nat, ghost start: seq<Call<C>>)
    returns (after: seq<R>)
    requires n < |suite| && suite[n] == subject
    requires Collected(engine, start, Calls(suite, [profile], rep, n, 0), records)
    modifies engine
    ensures Collected(engine, start, Calls(suite, [profile], rep, n + 1, 0), after)
  {
    after := ExtendRecords(engine, subject, rep, profile, records, start, Calls(suite, [profile], rep, n, 0));
    assert Calls(suite, [profile], rep, n, 1) == Calls(suite, [profile], rep, n + 1, 0);
  }

  /** One repetition of the solo run: the YAML cases, then the others. */
  method CollectRepetition<C, R>(engine: Engine<C, R>, yaml: seq<C>, ah: seq<C>, rep: nat, profile: Profile,
                                 records: seq<R>, ghost start: seq<Call<C>>) returns (after: seq<R>)
    requires Collected(engine, start, Calls(Suite(yaml, ah), [profile], rep, 0, 0), records)
    modifies engine
    ensures Collected(engine, start, Calls(Suite(yaml, ah), [profile], rep + 1, 0, 0), after)
  {
    ghost var suite := Suite(yaml, ah);
    after := records;
    for n := 0 to |yaml|
      invariant Collected(engine, start, Calls(suite, [profile], rep, n, 0), after)
    {
      after := CollectSoloCase(engine, Yaml(yaml[n]), rep, profile, after, suite, n, start);
    }
    for n := 0 to |ah|
      invariant Collected(engine, start, Calls(suite, [profile], rep, |yaml| + n, 0), after)
    {
      after := CollectSoloCase(engine, AntiHallucination(ah[n]), rep, profile, after, suite, |yaml| + n, start);
    }
  }

  /** The solo run: its calls are those of one profile, and its records what they return. */
  method CollectRecords<C, R>(engine: Engine<C, R>, yaml: seq<C>, ah: seq<C>, k: nat, profile: Profile)
    returns (records: seq<R>)
    modifies engine
    ensures engine.trace == old(engine.trace) + AllCalls(Suite(yaml, ah), k, [profile])
    ensures records == Records(engine.answer, AllCalls(Suite(yaml, ah), k, [profile]))
  {
    ghost var start := engine.trace;
    assert start + [] == start;
    records := [];
    for rep := 0 to k
      invariant Collected(engine, start, Calls(Suite(yaml, ah), [profile], rep, 0, 0), records)
    {
      records := CollectRepetition(engine, yaml, ah, rep, profile, records, start);
    }
  }

  /** Every arm holds what its own calls return. */
  ghost predicate ArmsHold<C, R>(arms: map<Profile, seq<R>>, profiles: seq<Profile>, answer: Call<C> -> seq<R>,
                                 calls: seq<Call<C>>) {
    && (forall p :: p in arms <==> p in profiles)
    && forall p :: p in profiles ==> arms[p] == Records(answer, CallsOf(calls, p))
  }

  ghost predicate Paired<C, R>(engine: Engine<C, R>, start: seq<Call<C>>, calls: seq<Call<C>>,
                               arms: map<Profile, seq<R>>, profiles: seq<Profile>)
    reads engine
  {
    engine.trace == start + calls && ArmsHold(arms, profiles, engine.answer, calls)
  }

  lemma ArmGrows<C, R>(arms: map<Profile, seq<R>>, profiles: seq<Profile>, answer: Call<C> -> seq<R>,
                       calls: seq<Call<C>>, call: Call<C>)
    requires ArmsHold(arms, profiles, answer, calls) && call.profile in profiles
    ensures ArmsHold(arms[call.profile := arms[call.profile] + answer(call)], profiles, answer, calls + [call])
  {
    forall p | p in profiles
      ensures Records(answer, CallsOf(calls + [call], p))
           == if p == call.profile then Records(answer, CallsOf(calls, p)) + answer(call)
                else Records(answer, CallsOf(calls, p))
    {
      CallsOfSnoc(calls, call, p);
      RecordsSnoc(answer, CallsOf(calls, p), call);
    }
  }

  method ExtendArm<C, R>(engine: Engine<C, R>, subject: Case<C>, rep: nat, profile: Profile, arms: map<Profile, seq<R>>,
                         ghost profiles: seq<Profile>, ghost start: seq<Call<C>>, ghost calls: seq<Call<C>>)
    returns (after: map<Profile, seq<R>>)
    requires Paired(engine, start, calls, arms, profiles) && profile in profiles
    modifies engine
    ensures Paired(engine, start, calls + [Call(subject, rep, profile)], after, profiles)
  {
    var got := engine.Collect(subject, rep, profile);
    ArmGrows(arms, profiles, engine.answer, calls, Call(subject, rep, profile));
    after := arms[profile := arms[profile] + got];
  }

  /** One case under every profile. */
  method CollectCase<C, R>(engine: Engine<C, R>, subject: Case<C>, rep: nat, profiles: seq<Profile>,
                           arms: map<Profile, seq<R>>, ghost suite: seq<Case<C>>, ghost n: nat,
                           ghost start: seq<Call<C>>)
    returns (after: map<Profile, seq<R>>)
    requires n < |suite| && suite[n] == subject
    requires Paired(engine, start, Calls(suite, profiles, rep, n, 0), arms, profiles)
    modifies engine
    ensures Paired(engine, start, Calls(suite, profiles, rep, n + 1, 0), after, profiles)
  {
    after := arms;
    for m := 0 to |profiles|
      invariant Paired(engine, start, Calls(suite, profiles, rep, n, m), after, profiles)
    {
      after := ExtendArm(engine, subject, rep, profiles[m], after, profiles, start, Calls(suite, profiles, rep, n, m));
    }
  }

  method CollectPairedYaml<C, R>(engine: Engine<C, R>, yaml: seq<C>, ghost ah: seq<C>, rep: nat, profiles: seq<Profile>,
                                 arms: map<Profile, seq<R>>, ghost start: seq<Call<C>>)
    returns (after: map<Profile, seq<R>>)
    requires Paired(engine, start, Calls(Suite(yaml, ah), profiles, rep, 0, 0), arms, profiles)
    modifies engine
    ensures Paired(engine, start, Calls(Suite(yaml, ah), profiles, rep, |yaml|, 0), after, profiles)
  {
    after := arms;
    for n := 0 to |yaml|
      invariant Paired(engine, start, Calls(Suite(yaml, ah), profiles, rep, n, 0), after, profiles)
    {
      after := CollectCase(engine, Yaml(yaml[n]), rep, profiles, after, Suite(yaml, ah), n, start);
    }
  }

  method CollectPairedOthers<C, R>(engine: Engine<C, R>, ghost yaml: seq<C>, ah: seq<C>, rep: nat,
                                   profiles: seq<Profile>, arms: map<Profile, seq<R>>, ghost start: seq<Call<C>>)
    returns (after: map<Profile, seq<R>>)
    requires Paired(engine, start, Calls(Suite(yaml, ah), profiles, rep, |yaml|, 0), arms, profiles)
    modifies engine
    ensures Paired(engine, start, Calls(Suite(yaml, ah), profiles, rep, |yaml| + |ah|, 0), after, profiles)
  {
    after := arms;
    for n := 0 to |ah|
      invariant Paired(engine, start, Calls(Suite(yaml, ah), profiles, rep, |yaml| + n, 0), after, profiles)
    {
      after := CollectCase(engine, AntiHallucination(ah[n]), rep, profiles, after, Suite(yaml, ah), |yaml| + n, start);
    }
  }

  method CollectPairedRepetition<C, R>(engine: Engine<C, R>, yaml: seq<C>, ah: seq<C>, rep: nat, profiles: seq<Profile>,
                                       arms: map<Profile, seq<R>>, ghost start: seq<Call<C>>)
    returns (after: map<Profile, seq<R>>)
    requires Paired(engine, start, Calls(Suite(yaml, ah), profiles, rep, 0, 0), arms, profiles)
    modifies engine
    ensures Paired(engine, start, Calls(Suite(yaml, ah), profiles, rep + 1, 0, 0), after, profiles)
  {
    after := CollectPairedYaml(engine, yaml, ah, rep, profiles, arms, start);
    after := CollectPairedOthers(engine, yaml, ah, rep, profiles, after, start);
  }

  /** The paired run: its calls go case by case, and every arm holds what its own calls return. */
  method CollectPairedRecords<C, R>(engine: Engine<C, R>, yaml: seq<C>, ah: seq<C>, k: nat, profiles: seq<Profile>)
    returns (arms: map<Profile, seq<R>>)
    modifies engine
    ensures engine.trace == old(engine.trace) + AllCalls(Suite(yaml, ah), k, profiles)
    ensures ArmsHold(arms, profiles, engine.answer, AllCalls(Suite(yaml, ah), k, profiles))
  {
    ghost var start := engine.trace;
    assert start + [] == start;
    arms := map p | p in profiles :: [];
    for rep := 0 to k
      invariant Paired(engine, start, Calls(Suite(yaml, ah), profiles, rep, 0, 0), arms, profiles)
    {
      arms := CollectPairedRepetition(engine, yaml, ah, rep, profiles, arms, start);
    }
  }

  // ----- an arm is the solo run -----

  lemma TurnCome(profiles: seq<Profile>, profile: Profile, m: nat)
    requires Distinct(profiles) && 0 < m <= |profiles|
    ensures profile in profiles[..m] <==> profile in profiles[..m - 1] || profile == profiles[m - 1]
    ensures profile == profiles[m - 1] ==> profile !in profiles[..m - 1]
  {
    assert profiles[..m] == profiles[..m - 1] + [profiles[m - 1]];
  }

  /** With profiles distinct, the calls of one profile so far are the solo run's: one case further once
      the profile's own turn has come. */
  lemma {:induction false} CallsAreSolo<C>(cases: seq<Case<C>>, profiles: seq<Profile>, profile: Profile, rep: nat,
                                           n: nat, m: nat)
    requires Distinct(profiles) && profile in profiles
    requires n <= |cases| && m <= |profiles| && (m > 0 ==> n < |cases|)
    ensures CallsOf(Calls(cases, profiles, rep, n, m), profile)
         == Calls(cases, [profile], rep, n, if profile in profiles[..m] then 1 else 0)
    decreases rep, n, m
  {
    if m > 0 {
      CallsAreSolo(cases, profiles, profile, rep, n, m - 1);
      CallsOfSnoc(Calls(cases, profiles, rep, n, m - 1), Call(cases[n], rep, profiles[m - 1]), profile);
      TurnCome(profiles, profile, m);
    } else if n > 0 {
      CallsAreSolo(cases, profiles, profile, rep, n - 1, |profiles|);
      assert profiles[..|profiles|] == profiles;
    } else if rep > 0 {
      CallsAreSolo(cases, profiles, profile, rep - 1, |cases|, 0);
    }
  }

  /** MAIN. Interleaving does not change an arm: with no profile repeated, the paired run gives each arm
      what the solo run of its profile gives, in the same order. */
  lemma ArmIsTheSoloRun<C, R>(arms: map<Profile, seq<R>>, answer: Call<C> -> seq<R>, yaml: seq<C>, ah: seq<C>, k: nat,
                              profiles: seq<Profile>, profile: Profile)
    requires Distinct(profiles) && profile in profiles
    requires ArmsHold(arms, profiles, answer, AllCalls(Suite(yaml, ah), k, profiles))
    ensures arms[profile] == Records(answer, AllCalls(Suite(yaml, ah), k, [profile]))
  {
    CallsAreSolo(Suite(yaml, ah), profiles, profile, k, 0, 0);
  }

  // ----- where each call comes -----

  /** The place of a call in the trace: repetitions, then cases, then profiles. */
  function Place(cases: nat, profiles: nat, rep: nat, n: nat, m: nat): nat { (rep * cases + n) * profiles + m }

  lemma PlaceSteps(cases: nat, profiles: nat, rep: nat, n: nat)
    ensures Place(cases, profiles, rep, n, profiles) == Place(cases, profiles, rep, n + 1, 0)
    ensures Place(cases, profiles, rep, cases, 0) == Place(cases, profiles, rep + 1, 0, 0)
  {
    assert (rep + 1) * cases == rep * cases + cases;
    assert (rep * cases + n + 1) * profiles == (rep * cases + n) * profiles + profiles;
  }

  lemma {:induction false} CallsSoFar<C>(cases: seq<Case<C>>, profiles: seq<Profile>, rep: nat, n: nat, m: nat)
    requires n <= |cases| && m <= |profiles| && (m > 0 ==> n < |cases|)
    ensures |Calls(cases, profiles, rep, n, m)| == Place(|cases|, |profiles|, rep, n, m)
    decreases rep, n, m
  {
    if m > 0 {
      CallsSoFar(cases, profiles, rep, n, m - 1);
    } else if n > 0 {
      CallsSoFar(cases, profiles, rep, n - 1, |profiles|);
      PlaceSteps(|cases|, |profiles|, rep, n - 1);
    } else if rep > 0 {
      CallsSoFar(cases, profiles, rep - 1, |cases|, 0);
      PlaceSteps(|cases|, |profiles|, rep - 1, 0);
    }
  }

  /** Earlier calls stay where they are. */
  lemma {:induction false} CallsExtend<C>(cases: seq<Case<C>>, profiles: seq<Profile>, rep: nat, n: nat, m: nat,
                                          rep': nat, n': nat, m': nat)
    requires n <= |cases| && m <= |profiles| && (m > 0 ==> n < |cases|)
    requires n' <= |cases| && m' <= |profiles| && (m' > 0 ==> n' < |cases|)
    requires rep < rep' || (rep == rep' && (n < n' || (n == n' && m <= m')))
    ensures Calls(cases, profiles, rep, n, m) <= Calls(cases, profiles, rep', n', m')
    decreases rep', n', m'
  {
    if rep == rep' && n == n' && m == m' {
    } else if m' > 0 {
      CallsExtend(cases, profiles, rep, n, m, rep', n', m' - 1);
    } else if n' > 0 {
      CallsExtend(cases, profiles, rep, n, m, rep', n' - 1, |profiles|);
    } else {
      CallsExtend(cases, profiles, rep, n, m, rep' - 1, |cases|, 0);
    }
  }

  /** MAIN. The trace has k times cases times profiles calls, and the call for repetition `rep`, case `n` and
      profile `m` stands at the mixed-radix place of the three: all the calls for one case and
      repetition come together, in the order of the profiles. */
  lemma CallAt<C>(cases: seq<Case<C>>, k: nat, profiles: seq<Profile>, rep: nat, n: nat, m: nat)
    requires rep < k && n < |cases| && m < |profiles|
    ensures |AllCalls(cases, k, profiles)| == k * |cases| * |profiles|
    ensures var at := (rep * |cases| + n) * |profiles| + m;
            at < |AllCalls(cases, k, profiles)| && AllCalls(cases, k, profiles)[at] == Call(cases[n], rep, profiles[m])
  {
    CallsSoFar(cases, profiles, k, 0, 0);
    CallsSoFar(cases, profiles, rep, n, m);
    CallsSoFar(cases, profiles, rep, n, m + 1);
    CallsExtend(cases, profiles, rep, n, m + 1, k, 0, 0);
  }
}
