/**
 * The scores page's fixture logic: ordinal suffixes, fixture identity, merging today's
 * fixtures with the live feed, and the goal-flash detector that compares score snapshots.
 * The clock (`now`) and each event's live status are inputs.
 */
module Scores {
  import opened Results
  import opened Text

  // ---------------------------------------------------------------------------------------
  // Numbers as text

  function DigitChar(d: nat): char
    requires d < 10
  {
    ('0' as int + d) as char
  }

  /** The decimal digits of `n`, most significant first, without leading zeros. */
  function DecimalDigits(n: nat): (r: string)
    ensures |r| >= 1 && forall i :: 0 <= i < |r| ==> '0' <= r[i] <= '9'
    ensures |r| > 1 ==> r[0] != '0'
  {
    if n < 10 then [DigitChar(n)] else DecimalDigits(n / 10) + [DigitChar(n % 10)]
  }

  /** The value of a string of decimal digits. */
  function ParseDecimal(s: string): nat
    requires forall i :: 0 <= i < |s| ==> '0' <= s[i] <= '9'
  {
    if s == [] then 0 else ParseDecimal(s[..|s| - 1]) * 10 + (s[|s| - 1] as int - '0' as int)
  }

  /** Reading the digits back gives the number: the text form loses nothing. */
  lemma {:induction false} ParseDecimalDigits(n: nat)
    ensures ParseDecimal(DecimalDigits(n)) == n
  {
    if n >= 10 {
      ParseDecimalDigits(n / 10);
      var d := DecimalDigits(n);
      assert d[..|d| - 1] == DecimalDigits(n / 10);
    }
  }

  /** `String(n)` for an integer. */
  function NumberText(n: int): string {
    if n < 0 then "-" + DecimalDigits(-n) else DecimalDigits(n)
  }

  // ---------------------------------------------------------------------------------------
  // Ordinals

  /** JavaScript's `%`: the remainder takes the sign of the dividend. */
  function JsRem(x: int, m: int): (r: int)
    requires m > 0
    ensures x >= 0 ==> r == x % m
    ensures x < 0 ==> -m < r <= 0
  {
    if x >= 0 then x % m else -((-x) % m)
  }

  /** The suffix `ordinalSuffix` appends: "st", "nd", "rd" or "th". */
  function OrdinalSuffix(n: int): string {
    var mod10 := JsRem(n, 10);
    var mod100 := JsRem(n, 100);
    if mod10 == 1 && mod100 != 11 then "st"
    else if mod10 == 2 && mod100 != 12 then "nd"
    else if mod10 == 3 && mod100 != 13 then "rd"
    else "th"
  }

  /** `ordinalSuffix(n)`: the number followed by its suffix; "" for a value that is not a finite number. */
  function Ordinal(n: Option<int>): (r: string)
    ensures n.None? <==> r == ""
    ensures n.Some? ==> r == NumberText(n.value) + OrdinalSuffix(n.value)
  {
    match n
    case None => ""
    case Some(x) => NumberText(x) + OrdinalSuffix(x)
  }

  /** The English rule for rankings: 1st, 2nd, 3rd, but 11th, 12th, 13th, and "th" otherwise. */
  lemma OrdinalSuffixRule(n: nat)
    ensures OrdinalSuffix(n) == "st" <==> n % 10 == 1 && n % 100 != 11
    ensures OrdinalSuffix(n) == "nd" <==> n % 10 == 2 && n % 100 != 12
    ensures OrdinalSuffix(n) == "rd" <==> n % 10 == 3 && n % 100 != 13
    ensures OrdinalSuffix(n) == "th" <==> !(n % 10 in {1, 2, 3}) || n % 100 in {11, 12, 13}
  {
  }

  /** The suffix of a non-negative number repeats every hundred. */
  lemma OrdinalSuffixPeriodic(n: nat)
    ensures OrdinalSuffix(n + 100) == OrdinalSuffix(n)
  {
    assert (n + 100) % 10 == n % 10;
    assert (n + 100) % 100 == n % 100;
  }

  /** With JavaScript's truncating `%`, every negative number gets "th". */
  lemma NegativeOrdinalIsTh(n: int)
    requires n < 0
    ensures OrdinalSuffix(n) == "th"
  {
  }

  // ---------------------------------------------------------------------------------------
  // Events

  /** A JSON text field: absent (`undefined`), `null`, or a string. */
  datatype Field = Absent | Null | Str(s: string)

  /** A score field as `numericScore` sees it: absent, null, "", a finite number, or anything else. */
  datatype Score = NoScore | NullScore | BlankScore | Numeric(n: int) | NotANumber

  /** A fixture from the sports feed, with the fields the fixture logic reads. */
  datatype Event = Event(
    idEvent: Field, dateEvent: Field, strHomeTeam: Field, strAwayTeam: Field,
    idHomeTeam: Field, idAwayTeam: Field, intHomeScore: Score, intAwayScore: Score)

  /** `{}`: an event with no fields. */
  const NoFields: Event := Event(Absent, Absent, Absent, Absent, Absent, Absent, NoScore, NoScore)

  predicate Truthy(f: Field) {
    f.Str? && f.s != ""
  }

  /** `f || ""`. */
  function OrEmpty(f: Field): string {
    if Truthy(f) then f.s else ""
  }

  /** `f || fallback`. */
  function OrElse(f: Field, fallback: string): string {
    if Truthy(f) then f.s else fallback
  }

  /** `${f}` in a template literal. */
  function TemplateText(f: Field): string {
    match f
    case Absent => "undefined"
    case Null => "null"
    case Str(s) => s
  }

  /** `fixtureKey`: "" for no event, the event id when there is one, else date and normalised team names. */
  function FixtureKey(event: Option<Event>): (r: string)
    ensures event.None? <==> r == ""
    ensures event.Some? && Truthy(event.value.idEvent) ==> r == "id:" + event.value.idEvent.s
    ensures event.Some? && !Truthy(event.value.idEvent) ==> StartsWith(r, "m:")
  {
    match event
    case None => ""
    case Some(e) =>
      if Truthy(e.idEvent) then "id:" + e.idEvent.s
      else
        var rest := OrEmpty(e.dateEvent) + "|" + TeamKey(e.strHomeTeam) + "|" + TeamKey(e.strAwayTeam);
        assert ("m:" + rest)[..2] == "m:";
        "m:" + rest
  }

  /** A team name as the match key holds it: lower-cased and trimmed. */
  function TeamKey(name: Field): (r: string)
    ensures Trimmed(r)
  {
    Trim(ToLower(OrEmpty(name)))
  }

  /** `isSameFixture`: same id when both have one, otherwise same date and same home and away teams. */
  predicate IsSameFixture(a: Option<Event>, b: Option<Event>) {
    if a.None? || b.None? then false
    else
      var x, y := a.value, b.value;
      if Truthy(x.idEvent) && Truthy(y.idEvent) then x.idEvent.s == y.idEvent.s
      else
        var sameDate := OrEmpty(x.dateEvent) == OrEmpty(y.dateEvent);
        var sameTeams :=
          || (Truthy(x.idHomeTeam) && Truthy(y.idHomeTeam) && x.idHomeTeam == y.idHomeTeam && x.idAwayTeam == y.idAwayTeam)
          || (ToLower(OrEmpty(x.strHomeTeam)) == ToLower(OrEmpty(y.strHomeTeam))
              && ToLower(OrEmpty(x.strAwayTeam)) == ToLower(OrEmpty(y.strAwayTeam)));
        sameDate && sameTeams
  }

  /** Fixture identity does not depend on the order of the arguments, and every event is its own fixture. */
  lemma IsSameFixtureSymmetric(a: Option<Event>, b: Option<Event>)
    ensures IsSameFixture(a, b) <==> IsSameFixture(b, a)
    ensures a.Some? ==> IsSameFixture(a, a)
  {
  }

  /** For two events with ids, equal keys and the same fixture mean the same thing. */
  lemma FixtureKeyMatchesSameFixture(a: Event, b: Event)
    requires Truthy(a.idEvent) && Truthy(b.idEvent)
    ensures FixtureKey(Some(a)) == FixtureKey(Some(b)) <==> IsSameFixture(Some(a), Some(b))
  {
    if FixtureKey(Some(a)) == FixtureKey(Some(b)) {
      assert a.idEvent.s == FixtureKey(Some(a))[3..];
      assert b.idEvent.s == FixtureKey(Some(b))[3..];
    }
  }

  /** Events without ids share a key when they have the same date and the same team names up to case and surrounding white space. */
  lemma MatchKeyIgnoresCaseAndSpaces(a: Event, b: Event)
    requires !Truthy(a.idEvent) && !Truthy(b.idEvent)
    requires OrEmpty(a.dateEvent) == OrEmpty(b.dateEvent)
    requires Trim(ToLower(OrEmpty(a.strHomeTeam))) == Trim(ToLower(OrEmpty(b.strHomeTeam)))
    requires Trim(ToLower(OrEmpty(a.strAwayTeam))) == Trim(ToLower(OrEmpty(b.strAwayTeam)))
    ensures FixtureKey(Some(a)) == FixtureKey(Some(b))
  {
  }

  /** Id-less events that are the same fixture by team names share a key. */
  lemma NameMatchedFixturesShareKey(a: Event, b: Event)
    requires !Truthy(a.idEvent) && !Truthy(b.idEvent)
    requires OrEmpty(a.dateEvent) == OrEmpty(b.dateEvent)
    requires ToLower(OrEmpty(a.strHomeTeam)) == ToLower(OrEmpty(b.strHomeTeam))
    requires ToLower(OrEmpty(a.strAwayTeam)) == ToLower(OrEmpty(b.strAwayTeam))
    ensures IsSameFixture(Some(a), Some(b))
    ensures FixtureKey(Some(a)) == FixtureKey(Some(b))
  {
    MatchKeyIgnoresCaseAndSpaces(a, b);
  }

  /** An event with an id and one without never share a key. */
  lemma IdKeysDifferFromMatchKeys(a: Event, b: Event)
    requires Truthy(a.idEvent) && !Truthy(b.idEvent)
    ensures FixtureKey(Some(a)) != FixtureKey(Some(b))
  {
    assert FixtureKey(Some(a))[0] == 'i';
    assert FixtureKey(Some(b))[0] == 'm';
  }

  /** `numericScore`: missing, null and "" give no score, and so does a value that is not a finite number. */
  function NumericScore(v: Score): (r: Option<int>)
    ensures r.Some? <==> v.Numeric?
    ensures v.Numeric? ==> r == Some(v.n)
  {
    match v
    case Numeric(n) => Some(n)
    case _ => None
  }

  datatype ScorePair = ScorePair(home: int, away: int)

  /** `scorePair`: both scores, or none when either is missing. */
  function GetScorePair(e: Event): (r: Option<ScorePair>)
    ensures r.Some? <==> NumericScore(e.intHomeScore).Some? && NumericScore(e.intAwayScore).Some?
    ensures r.Some? ==> r.value == ScorePair(e.intHomeScore.n, e.intAwayScore.n)
  {
    match (NumericScore(e.intHomeScore), NumericScore(e.intAwayScore))
    case (Some(h), Some(a)) => Some(ScorePair(h, a))
    case _ => None
  }

  // ---------------------------------------------------------------------------------------
  // Merging today's fixtures with the live feed

  /** The key `mergeTodayWithLive` files an event under. */
  function MergeKey(e: Event): string {
    if Truthy(e.idEvent) then e.idEvent.s
    else TemplateText(e.strHomeTeam) + "|" + TemplateText(e.strAwayTeam) + "|" + TemplateText(e.dateEvent)
  }

  function Keys(events: seq<Event>): (r: seq<string>)
    ensures |r| == |events| && forall i :: 0 <= i < |events| ==> r[i] == MergeKey(events[i])
  {
    seq(|events|, i requires 0 <= i < |events| => MergeKey(events[i]))
  }

  /** `{ ...base, ...top }`: every field `top` has replaces the one in `base`. */
  function Override(base: Event, top: Event): (r: Event)
    ensures top.idEvent != Absent ==> r.idEvent == top.idEvent
    ensures top.idEvent == Absent ==> r.idEvent == base.idEvent
    ensures top.intHomeScore != NoScore ==> r.intHomeScore == top.intHomeScore
    ensures top.intHomeScore == NoScore ==> r.intHomeScore == base.intHomeScore
  {
    Event(
      if top.idEvent != Absent then top.idEvent else base.idEvent,
      if top.dateEvent != Absent then top.dateEvent else base.dateEvent,
      if top.strHomeTeam != Absent then top.strHomeTeam else base.strHomeTeam,
      if top.strAwayTeam != Absent then top.strAwayTeam else base.strAwayTeam,
      if top.idHomeTeam != Absent then top.idHomeTeam else base.idHomeTeam,
      if top.idAwayTeam != Absent then top.idAwayTeam else base.idAwayTeam,
      if top.intHomeScore != NoScore then top.intHomeScore else base.intHomeScore,
      if top.intAwayScore != NoScore then top.intAwayScore else base.intAwayScore)
  }

  /** Each of the six other fields follows the same rule: the live value when present, else today's. */
  lemma OverrideOtherFields(base: Event, top: Event)
    ensures var r := Override(base, top);
      && r.dateEvent == (if top.dateEvent != Absent then top.dateEvent else base.dateEvent)
      && r.strHomeTeam == (if top.strHomeTeam != Absent then top.strHomeTeam else base.strHomeTeam)
      && r.strAwayTeam == (if top.strAwayTeam != Absent then top.strAwayTeam else base.strAwayTeam)
      && r.idHomeTeam == (if top.idHomeTeam != Absent then top.idHomeTeam else base.idHomeTeam)
      && r.idAwayTeam == (if top.idAwayTeam != Absent then top.idAwayTeam else base.idAwayTeam)
      && r.intAwayScore == (if top.intAwayScore != NoScore then top.intAwayScore else base.intAwayScore)
  {
  }

  /** Spreading onto `{}` copies the event. */
  lemma OverrideOntoNothing(e: Event)
    ensures Override(NoFields, e) == e
  {
  }

  /** The keys in order of first appearance, each once. */
  function Dedup(s: seq<string>): (r: seq<string>)
    ensures forall x :: x in r <==> x in s
    ensures forall i, j :: 0 <= i < j < |r| ==> r[i] != r[j]
  {
    if s == [] then []
    else
      var d := Dedup(s[..|s| - 1]);
      assert forall x :: x in s <==> x in s[..|s| - 1] || x == s[|s| - 1] by {
        assert s == s[..|s| - 1] + [s[|s| - 1]];
      }
      if s[|s| - 1] in d then d else d + [s[|s| - 1]]
  }

  /** Keys first seen in `a` come first, in their order; appending never reorders them. */
  lemma {:induction false} DedupPrefix(a: seq<string>, b: seq<string>)
    ensures |Dedup(a)| <= |Dedup(a + b)| && Dedup(a + b)[..|Dedup(a)|] == Dedup(a)
    decreases |b|
  {
    if b == [] {
      assert a + b == a;
    } else {
      var bi := b[..|b| - 1];
      DedupPrefix(a, bi);
      assert (a + b)[..|a + b| - 1] == a + bi;
    }
  }

  /** The last event of `events` filed under `k`. */
  function LastWithKey(events: seq<Event>, k: string): (r: Option<Event>)
    ensures r.None? <==> k !in Keys(events)
  {
    if events == [] then None
    else if MergeKey(events[|events| - 1]) == k then Some(events[|events| - 1])
    else
      var init := events[..|events| - 1];
      assert Keys(events) == Keys(init) + [MergeKey(events[|events| - 1])];
      LastWithKey(init, k)
  }

  /** The events of `events` filed under `k`, in order. */
  function WithKey(events: seq<Event>, k: string): (r: seq<Event>)
    ensures r == [] <==> k !in Keys(events)
  {
    if events == [] then []
    else
      var init := events[..|events| - 1];
      var last := events[|events| - 1];
      assert Keys(events) == Keys(init) + [MergeKey(last)];
      WithKey(init, k) + (if MergeKey(last) == k then [last] else [])
  }

  /** Spreads `tops` onto `base` one after the other. */
  function OverrideAll(base: Event, tops: seq<Event>): Event {
    if tops == [] then base else Override(OverrideAll(base, tops[..|tops| - 1]), tops[|tops| - 1])
  }

  /** What the merge holds under `k`: today's last event for `k` (or `{}`), with each live event for `k` spread over it. */
  function MergedValue(today: seq<Event>, live: seq<Event>, k: string): Event {
    var base := match LastWithKey(today, k) case Some(e) => e case None => NoFields;
    OverrideAll(base, WithKey(live, k))
  }

  /** Filing today's events: each key once in first-seen order, holding the last event filed under it. */
  method IndexToday(today: seq<Event>) returns (order: seq<string>, byKey: map<string, Event>)
    ensures order == Dedup(Keys(today))
    ensures forall k :: k in byKey <==> k in order
    ensures forall k :: k in byKey ==> Some(byKey[k]) == LastWithKey(today, k)
  {
    order, byKey := [], map[];
    for i := 0 to |today|
      invariant order == Dedup(Keys(today[..i]))
      invariant forall k :: k in byKey <==> k in order
      invariant forall k :: k in byKey ==> Some(byKey[k]) == LastWithKey(today[..i], k)
    {
      var e := today[i];
      var key := MergeKey(e);
      DedupKeysStep(today, i);
      if key !in byKey {
        order := order + [key];
      }
      ghost var before := byKey;
      byKey := byKey[key := e];
      forall k | k in byKey ensures Some(byKey[k]) == LastWithKey(today[..i + 1], k) {
        LastWithKeyStep(today, i, k);
        if k != key {
          assert byKey[k] == before[k];
        }
      }
    }
    assert today[..|today|] == today;
  }

  /** A new key goes at the end; a key already seen changes nothing. */
  lemma DedupSnoc(s: seq<string>, x: string)
    ensures Dedup(s + [x]) == if x in Dedup(s) then Dedup(s) else Dedup(s) + [x]
  {
    assert (s + [x])[..|s|] == s;
  }

  /** Taking one more event adds its key at the end unless the key was seen already. */
  lemma DedupKeysStep(events: seq<Event>, i: nat)
    requires i < |events|
    ensures var d, key := Dedup(Keys(events[..i])), MergeKey(events[i]);
      Dedup(Keys(events[..i + 1])) == if key in d then d else d + [key]
  {
    var ks := Keys(events[..i]);
    assert events[..i + 1][..i] == events[..i];
    assert Keys(events[..i + 1]) == ks + [MergeKey(events[i])];
    assert (ks + [MergeKey(events[i])])[..|ks|] == ks;
  }

  /** Taking one more of today's events makes it the last one filed under its key. */
  lemma LastWithKeyStep(events: seq<Event>, i: nat, k: string)
    requires i < |events|
    ensures LastWithKey(events[..i + 1], k) == if k == MergeKey(events[i]) then Some(events[i]) else LastWithKey(events[..i], k)
  {
    assert events[..i + 1][..i] == events[..i];
  }

  /** Taking one more live event extends the key list by its key. */
  lemma LiveKeysStep(today: seq<Event>, live: seq<Event>, j: nat)
    requires j < |live|
    ensures Keys(today) + Keys(live[..j + 1]) == (Keys(today) + Keys(live[..j])) + [MergeKey(live[j])]
  {
    assert live[..j + 1][..j] == live[..j];
    assert Keys(live[..j + 1]) == Keys(live[..j]) + [MergeKey(live[j])];
  }

  /** Taking one more live event spreads it over the value of its own key and leaves the others alone. */
  lemma MergedValueStep(today: seq<Event>, live: seq<Event>, j: nat, k: string)
    requires j < |live|
    ensures k == MergeKey(live[j]) ==> MergedValue(today, live[..j + 1], k) == Override(MergedValue(today, live[..j], k), live[j])
    ensures k != MergeKey(live[j]) ==> MergedValue(today, live[..j + 1], k) == MergedValue(today, live[..j], k)
  {
    var init, full, x := live[..j], live[..j + 1], live[j];
    assert full[..|full| - 1] == init && full[|full| - 1] == x;
    var w := WithKey(init, k);
    assert WithKey(full, k) == w + (if MergeKey(x) == k then [x] else []);
    var base := match LastWithKey(today, k) case Some(e) => e case None => NoFields;
    if MergeKey(x) == k {
      var ww := w + [x];
      assert ww[..|ww| - 1] == w;
      assert OverrideAll(base, ww) == Override(OverrideAll(base, w), x);
    } else {
      assert w + [] == w;
    }
  }

  /** A key neither list files anything under holds `{}`. */
  lemma UnfiledKeyIsEmpty(today: seq<Event>, live: seq<Event>, k: string)
    requires k !in Keys(today) && k !in Keys(live)
    ensures MergedValue(today, live, k) == NoFields
  {
  }

  /** Filing one more live event keeps every filed value equal to its merged value. */
  lemma FileLiveStep(today: seq<Event>, live: seq<Event>, j: nat, byKey: map<string, Event>, after: map<string, Event>)
    requires j < |live|
    requires forall k :: k in byKey ==> byKey[k] == MergedValue(today, live[..j], k)
    requires after == byKey[MergeKey(live[j]) := Override(MergedValue(today, live[..j], MergeKey(live[j])), live[j])]
    ensures forall k :: k in after ==> after[k] == MergedValue(today, live[..j + 1], k)
  {
    forall k | k in after ensures after[k] == MergedValue(today, live[..j + 1], k) {
      MergedValueStep(today, live, j, k);
    }
  }

  /** Filing one more live event appends its key to the order exactly when the key was not filed yet. */
  lemma LiveOrderStep(today: seq<Event>, live: seq<Event>, j: nat, order: seq<string>, byKey: map<string, Event>,
                      v: Event, order': seq<string>)
    requires j < |live|
    requires order == Dedup(Keys(today) + Keys(live[..j]))
    requires forall k :: k in byKey <==> k in order
    requires order' == if MergeKey(live[j]) in byKey then order else order + [MergeKey(live[j])]
    ensures order' == Dedup(Keys(today) + Keys(live[..j + 1]))
    ensures forall k :: k in byKey[MergeKey(live[j]) := v] <==> k in order'
  {
    LiveKeysStep(today, live, j);
    DedupSnoc(Keys(today) + Keys(live[..j]), MergeKey(live[j]));
  }

  /** A key not filed yet holds no fields before its first live event. */
  lemma UnfiledLiveKey(today: seq<Event>, live: seq<Event>, j: nat, order: seq<string>, key: string)
    requires j <= |live|
    requires order == Dedup(Keys(today) + Keys(live[..j]))
    requires key !in order
    ensures MergedValue(today, live[..j], key) == NoFields
  {
    assert key !in Keys(today) + Keys(live[..j]);
    UnfiledKeyIsEmpty(today, live[..j], key);
  }

  /** Filing one more live event keeps every filed value equal to its merged value, new keys included. */
  lemma FiledValueStep(today: seq<Event>, live: seq<Event>, j: nat,
                       order: seq<string>, byKey: map<string, Event>, byKey': map<string, Event>)
    requires j < |live|
    requires order == Dedup(Keys(today) + Keys(live[..j]))
    requires forall k :: k in byKey <==> k in order
    requires forall k :: k in byKey ==> byKey[k] == MergedValue(today, live[..j], k)
    requires byKey' == byKey[MergeKey(live[j]) :=
      Override(if MergeKey(live[j]) in byKey then byKey[MergeKey(live[j])] else NoFields, live[j])]
    ensures forall k :: k in byKey' ==> byKey'[k] == MergedValue(today, live[..j + 1], k)
  {
    var key := MergeKey(live[j]);
    if key !in byKey {
      UnfiledLiveKey(today, live, j, order, key);
    }
    FileLiveStep(today, live, j, byKey, byKey');
  }

  /** Before any live event is filed, each key holds today's last event for it. */
  lemma FiledBeforeLive(today: seq<Event>, live: seq<Event>, byKey: map<string, Event>)
    requires forall k :: k in byKey ==> Some(byKey[k]) == LastWithKey(today, k)
    ensures forall k :: k in byKey ==> byKey[k] == MergedValue(today, live[..0], k)
  {
    assert live[..0] == [];
  }

  /** Filing the live events over today's: each live event is spread over what its key holds so far. */
  method IndexLive(today: seq<Event>, live: seq<Event>, order0: seq<string>, byKey0: map<string, Event>)
    returns (order: seq<string>, byKey: map<string, Event>)
    requires order0 == Dedup(Keys(today))
    requires forall k :: k in byKey0 <==> k in order0
    requires forall k :: k in byKey0 ==> Some(byKey0[k]) == LastWithKey(today, k)
    ensures order == Dedup(Keys(today) + Keys(live))
    ensures forall k :: k in byKey <==> k in order
    ensures forall k :: k in byKey ==> byKey[k] == MergedValue(today, live, k)
  {
    order, byKey := order0, byKey0;
    assert Keys(today) + Keys(live[..0]) == Keys(today);
    FiledBeforeLive(today, live, byKey);
    for j := 0 to |live|
      invariant order == Dedup(Keys(today) + Keys(live[..j]))
      invariant forall k :: k in byKey <==> k in order
      invariant forall k :: k in byKey ==> byKey[k] == MergedValue(today, live[..j], k)
    {
      var e := live[j];
      var key := MergeKey(e);
      ghost var order1, byKey1 := order, byKey;
      var existing := if key in byKey then byKey[key] else NoFields;
      if key !in byKey {
        order := order + [key];
      }
      byKey := byKey[key := Override(existing, e)];
      LiveOrderStep(today, live, j, order1, byKey1, Override(existing, e), order);
      FiledValueStep(today, live, j, order1, byKey1, byKey);
    }
    assert live[..|live|] == live;
  }

  /** `mergeTodayWithLive`: one event per key, today's keys first, live fields winning. */
  method MergeTodayWithLive(today: seq<Event>, live: seq<Event>) returns (merged: seq<Event>)
    ensures |merged| == |Dedup(Keys(today) + Keys(live))|
    ensures forall i :: 0 <= i < |merged| ==>
      merged[i] == MergedValue(today, live, Dedup(Keys(today) + Keys(live))[i])
  {
    var order0, byKey0 := IndexToday(today);
    var order, byKey := IndexLive(today, live, order0, byKey0);
    merged := seq(|order|, i requires 0 <= i < |order| => byKey[order[i]]);
  }

  /** A key only today's list has keeps today's (last) event for it unchanged. */
  lemma TodayOnlyKeyKeepsEvent(today: seq<Event>, live: seq<Event>, k: string)
    requires k in Keys(today) && k !in Keys(live)
    ensures MergedValue(today, live, k) == LastWithKey(today, k).value
  {
  }

  /** A key with one event in each list gets today's fields overlaid by the live event's. */
  lemma SharedKeyPrefersLive(today: seq<Event>, live: seq<Event>, k: string, t: Event, l: Event)
    requires LastWithKey(today, k) == Some(t) && WithKey(live, k) == [l]
    ensures MergedValue(today, live, k) == Override(t, l)
  {
    assert OverrideAll(t, [l]) == Override(OverrideAll(t, []), l);
  }

  // ---------------------------------------------------------------------------------------
  // Goal flashes

  /** A "goal" banner for a fixture, shown until `expiresAt`. */
  datatype Flash = Flash(team: string, score: string, expiresAt: int, force: bool)

  const FlashMillis: int := 7000

  /** The flashes still showing at `now` (`expiresAt > now`). */
  function Unexpired(flashes: map<string, Flash>, now: int): (r: map<string, Flash>)
    ensures forall k :: k in r <==> k in flashes && flashes[k].expiresAt > now
    ensures forall k :: k in r ==> r[k] == flashes[k]
  {
    map k | k in flashes && flashes[k].expiresAt > now :: flashes[k]
  }

  /** Who scored: the side whose score rose more, or "Goal Update" when both rose equally. */
  function Scorer(e: Event, homeDelta: int, awayDelta: int): (r: string)
    ensures homeDelta > awayDelta ==> r == OrElse(e.strHomeTeam, "Home")
    ensures awayDelta > homeDelta ==> r == OrElse(e.strAwayTeam, "Away")
    ensures homeDelta == awayDelta ==> r == "Goal Update"
  {
    if homeDelta > awayDelta then OrElse(e.strHomeTeam, "Home")
    else if awayDelta > homeDelta then OrElse(e.strAwayTeam, "Away")
    else "Goal Update"
  }

  /** The event records a score pair in the snapshot (its fixture key is never empty). */
  predicate Snapshotted(e: Event) {
    GetScorePair(e).Some?
  }

  /** The event is live, was seen before, and its total score went up. */
  predicate ScoredSince(e: Event, prev: map<string, ScorePair>, isLive: Event -> bool) {
    && Snapshotted(e)
    && FixtureKey(Some(e)) in prev
    && isLive(e)
    && var p, q := GetScorePair(e).value, prev[FixtureKey(Some(e))];
       (p.home - q.home) + (p.away - q.away) > 0
  }

  /** One event's effect on the flashes. */
  function FlashStep(flashes: map<string, Flash>, e: Event, prev: map<string, ScorePair>, now: int, isLive: Event -> bool): map<string, Flash> {
    if !ScoredSince(e, prev, isLive) then flashes
    else flashes[FixtureKey(Some(e)) := GoalFlash(e, prev, now)]
  }

  /** The banner for a goal in `e`: the scorer, the new score, shown for `FlashMillis`. */
  function GoalFlash(e: Event, prev: map<string, ScorePair>, now: int): Flash
    requires Snapshotted(e) && FixtureKey(Some(e)) in prev
  {
    var p, q := GetScorePair(e).value, prev[FixtureKey(Some(e))];
    Flash(Scorer(e, p.home - q.home, p.away - q.away), NumberText(p.home) + " - " + NumberText(p.away), now + FlashMillis, false)
  }

  /** The flashes after visiting `pool` in order. */
  function FlashesAfter(flashes: map<string, Flash>, pool: seq<Event>, prev: map<string, ScorePair>, now: int, isLive: Event -> bool): map<string, Flash> {
    if pool == [] then flashes
    else FlashStep(FlashesAfter(flashes, pool[..|pool| - 1], prev, now, isLive), pool[|pool| - 1], prev, now, isLive)
  }

  /** The next snapshot: each keyed event with both scores, a later event for the same key winning. */
  function SnapshotOf(pool: seq<Event>): map<string, ScorePair> {
    if pool == [] then map[]
    else
      var m := SnapshotOf(pool[..|pool| - 1]);
      var e := pool[|pool| - 1];
      if Snapshotted(e) then m[FixtureKey(Some(e)) := GetScorePair(e).value] else m
  }

  /** `e` records a score pair under `k`. */
  predicate RecordsUnder(e: Event, k: string) {
    Snapshotted(e) && FixtureKey(Some(e)) == k
  }

  /** The snapshot holds exactly the keys of the events that have both scores. */
  lemma {:induction false} SnapshotKeys(pool: seq<Event>, k: string)
    ensures k in SnapshotOf(pool) <==> exists i :: 0 <= i < |pool| && RecordsUnder(pool[i], k)
  {
    if pool != [] {
      var init, last := pool[..|pool| - 1], pool[|pool| - 1];
      SnapshotKeys(init, k);
      if RecordsUnder(last, k) {
        assert RecordsUnder(pool[|pool| - 1], k);
      } else {
        assert k in SnapshotOf(pool) <==> k in SnapshotOf(init);
        if k in SnapshotOf(init) {
          var i :| 0 <= i < |init| && RecordsUnder(init[i], k);
          assert pool[i] == init[i];
        }
        forall i | 0 <= i < |pool| && RecordsUnder(pool[i], k)
          ensures 0 <= i < |init| && RecordsUnder(init[i], k)
        {
          assert i != |pool| - 1;
        }
      }
    }
  }

  /** Every flash left after detection is still showing: the pruned ones and the new ones alike. */
  lemma {:induction false} FlashesAllUnexpired(flashes: map<string, Flash>, pool: seq<Event>, prev: map<string, ScorePair>, now: int, isLive: Event -> bool)
    requires forall k :: k in flashes ==> flashes[k].expiresAt > now
    ensures forall k :: k in FlashesAfter(flashes, pool, prev, now, isLive) ==>
      FlashesAfter(flashes, pool, prev, now, isLive)[k].expiresAt > now
  {
    if pool != [] {
      FlashesAllUnexpired(flashes, pool[..|pool| - 1], prev, now, isLive);
    }
  }

  /** A flash appears or changes only for a live event that was seen before and whose total score rose. */
  lemma {:induction false} FlashOnlyOnGoal(flashes: map<string, Flash>, pool: seq<Event>, prev: map<string, ScorePair>, now: int, isLive: Event -> bool, k: string)
    requires k in FlashesAfter(flashes, pool, prev, now, isLive)
    requires k !in flashes || FlashesAfter(flashes, pool, prev, now, isLive)[k] != flashes[k]
    ensures exists e :: e in pool && FixtureKey(Some(e)) == k && ScoredSince(e, prev, isLive)
    ensures FlashesAfter(flashes, pool, prev, now, isLive)[k].expiresAt == now + FlashMillis
    ensures !FlashesAfter(flashes, pool, prev, now, isLive)[k].force
  {
    var init := pool[..|pool| - 1];
    var e := pool[|pool| - 1];
    var before := FlashesAfter(flashes, init, prev, now, isLive);
    assert pool == init + [e];
    if ScoredSince(e, prev, isLive) && FixtureKey(Some(e)) == k {
    } else {
      FlashOnlyOnGoal(flashes, init, prev, now, isLive, k);
      var w :| w in init && FixtureKey(Some(w)) == k && ScoredSince(w, prev, isLive);
      assert w in pool;
    }
  }

  /** A fresh goal shows: the last goal seen for a fixture in the pool leaves that fixture's flash naming the scorer and the new score, for 7000 ms. */
  lemma {:induction false} GoalFlashShows(flashes: map<string, Flash>, pool: seq<Event>, prev: map<string, ScorePair>, now: int, isLive: Event -> bool, i: nat)
    requires i < |pool| && ScoredSince(pool[i], prev, isLive)
    requires forall j :: i < j < |pool| ==> !(ScoredSince(pool[j], prev, isLive) && FixtureKey(Some(pool[j])) == FixtureKey(Some(pool[i])))
    ensures FixtureKey(Some(pool[i])) in FlashesAfter(flashes, pool, prev, now, isLive)
    ensures FlashesAfter(flashes, pool, prev, now, isLive)[FixtureKey(Some(pool[i]))] == GoalFlash(pool[i], prev, now)
  {
    var init, last := pool[..|pool| - 1], pool[|pool| - 1];
    if i < |pool| - 1 {
      var k := FixtureKey(Some(pool[i]));
      forall j | i < j < |init|
        ensures !(ScoredSince(init[j], prev, isLive) && FixtureKey(Some(init[j])) == FixtureKey(Some(init[i])))
      {
        assert init[j] == pool[j] && init[i] == pool[i];
      }
      GoalFlashShows(flashes, init, prev, now, isLive, i);
      assert init[i] == pool[i];
      FlashStepOtherKey(FlashesAfter(flashes, init, prev, now, isLive), last, prev, now, isLive, k);
    }
  }

  /** A step for an event without a goal under `k` leaves the flash under `k` alone. */
  lemma FlashStepOtherKey(before: map<string, Flash>, e: Event, prev: map<string, ScorePair>, now: int, isLive: Event -> bool, k: string)
    requires k in before && !(ScoredSince(e, prev, isLive) && FixtureKey(Some(e)) == k)
    ensures k in FlashStep(before, e, prev, now, isLive) && FlashStep(before, e, prev, now, isLive)[k] == before[k]
  {
  }

  /** Visiting one more event of the pool applies its step to the flashes and to the snapshot. */
  lemma PoolStep(flashes: map<string, Flash>, pool: seq<Event>, i: nat, prev: map<string, ScorePair>, now: int, isLive: Event -> bool)
    requires i < |pool|
    ensures FlashesAfter(flashes, pool[..i + 1], prev, now, isLive) == FlashStep(FlashesAfter(flashes, pool[..i], prev, now, isLive), pool[i], prev, now, isLive)
    ensures SnapshotOf(pool[..i + 1]) == if Snapshotted(pool[i]) then SnapshotOf(pool[..i])[FixtureKey(Some(pool[i])) := GetScorePair(pool[i]).value] else SnapshotOf(pool[..i])
  {
    assert pool[..i + 1][..i] == pool[..i];
  }

  /** The page state the detector updates. */
  class ScoreBoard {
    var goalFlashes: map<string, Flash>
    var liveScoreSnapshot: map<string, ScorePair>

    constructor ()
      ensures goalFlashes == map[] && liveScoreSnapshot == map[]
    {
      goalFlashes := map[];
      liveScoreSnapshot := map[];
    }

    /** The pruning pass of `detectGoalFlashes`: forget every flash that has expired by `now`. */
    method PruneExpired(now: int)
      modifies this`goalFlashes
      ensures goalFlashes == Unexpired(old(goalFlashes), now)
    {
      var pending := goalFlashes.Keys;
      while pending != {}
        invariant pending <= old(goalFlashes).Keys
        invariant forall k :: k in goalFlashes ==> k in old(goalFlashes) && goalFlashes[k] == old(goalFlashes)[k]
        invariant forall k :: k in pending ==> k in goalFlashes
        invariant forall k :: k in old(goalFlashes) && k !in pending ==>
          (k in goalFlashes <==> old(goalFlashes)[k].expiresAt > now)
        decreases pending
      {
        var key :| key in pending;
        if goalFlashes[key].expiresAt <= now {
          goalFlashes := goalFlashes - {key};
        }
        pending := pending - {key};
      }
      assert goalFlashes == Unexpired(old(goalFlashes), now);
    }

    /** `detectGoalFlashes`: drop expired flashes, flash every fresh goal, then replace the snapshot. */
    method DetectGoalFlashes(now: int, pool: seq<Event>, isLive: Event -> bool)
      modifies this
      ensures liveScoreSnapshot == SnapshotOf(pool)
      ensures goalFlashes == FlashesAfter(Unexpired(old(goalFlashes), now), pool, old(liveScoreSnapshot), now, isLive)
      ensures forall k :: k in goalFlashes ==> goalFlashes[k].expiresAt > now
    {
      PruneExpired(now);
      var start := goalFlashes;
      var prev := liveScoreSnapshot;
      var next: map<string, ScorePair> := map[];
      for i := 0 to |pool|
        invariant next == SnapshotOf(pool[..i])
        invariant goalFlashes == FlashesAfter(start, pool[..i], prev, now, isLive)
      {
        var e := pool[i];
        PoolStep(start, pool, i, prev, now, isLive);
        var key := FixtureKey(Some(e));
        var pair := GetScorePair(e);
        if pair.None? {
          continue;
        }
        next := next[key := pair.value];
        if key !in prev {
          continue;
        }
        if !isLive(e) {
          continue;
        }
        var homeDelta := pair.value.home - prev[key].home;
        var awayDelta := pair.value.away - prev[key].away;
        if homeDelta + awayDelta <= 0 {
          continue;
        }
        var team := Scorer(e, homeDelta, awayDelta);
        goalFlashes := goalFlashes[key := Flash(team, NumberText(pair.value.home) + " - " + NumberText(pair.value.away), now + FlashMillis, false)];
      }
      assert pool[..|pool|] == pool;
      liveScoreSnapshot := next;
      FlashesAllUnexpired(start, pool, prev, now, isLive);
    }
  }
}
