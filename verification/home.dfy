/**
 * The home screen (components/HomeScreen.tsx): the trial and daily-limit
 * gate, the topic search, the grouping of topics into fixed categories, the
 * overall progress figures and the colour of each topic's score.
 */
module Home {
  import opened Wrappers
  import opened Types
  import Text
  import Seqs
  import Percent

  const DailyLimit: int := 30
  const TrialDays: int := 7
  const MsPerDay: int := 86400000

  // ---------------------------------------------------------------- access gate

  datatype Access = Access(trialActive: bool, daysRemaining: int, usedToday: int, dailyLimit: int, canTakeTest: bool)

  /** `Math.floor(ms / (1000 * 60 * 60 * 24))`; division by a positive divisor floors in Dafny too. */
  function WholeDays(ms: int): (d: int)
    ensures d * MsPerDay <= ms < (d + 1) * MsPerDay
  {
    ms / MsPerDay
  }

  /**
   * The local calendar day of an instant, for a fixed offset of local time
   * from UTC in milliseconds (the `new Date(y, m, d)` truncation).
   */
  function LocalDay(t: int, tzOffset: int): int {
    WholeDays(t + tzOffset)
  }

  /** The questions counted against today's limit: the stored count only when the last question was today. */
  function UsedToday(u: User, now: int, tzOffset: int): (n: int)
    ensures u.lastQuestionDate.None? ==> n == 0
    ensures u.lastQuestionDate.Some? && LocalDay(u.lastQuestionDate.value, tzOffset) != LocalDay(now, tzOffset) ==> n == 0
    ensures u.lastQuestionDate.Some? && LocalDay(u.lastQuestionDate.value, tzOffset) == LocalDay(now, tzOffset) ==>
      n == u.dailyQuestionsAnswered.GetOr(0)
  {
    if u.lastQuestionDate.Some? && LocalDay(u.lastQuestionDate.value, tzOffset) == LocalDay(now, tzOffset)
    then u.dailyQuestionsAnswered.GetOr(0)
    else 0
  }

  /**
   * The trial/daily-limit memo. A user's dates are instants in milliseconds;
   * a missing (or falsy) date is `None`. `now` is the clock reading.
   */
  function AccessGate(user: Option<User>, now: int, tzOffset: int): (a: Access)
    ensures user.None? ==> a == Access(false, 0, 0, DailyLimit, false)
    ensures user.Some? ==> (a.trialActive <==>
      user.value.trialStartDate.Some? && WholeDays(now - user.value.trialStartDate.value) < TrialDays)
    ensures a.trialActive ==> a.daysRemaining == TrialDays - WholeDays(now - user.value.trialStartDate.value) > 0
    ensures !a.trialActive ==> a.daysRemaining == 0
    ensures user.Some? ==> a.usedToday == UsedToday(user.value, now, tzOffset)
    ensures a.dailyLimit == DailyLimit
    ensures a.canTakeTest <==> user.Some? && (a.trialActive || a.usedToday < DailyLimit)
  {
    if user.None? then Access(false, 0, 0, DailyLimit, false)
    else
      var u := user.value;
      var trial := u.trialStartDate.Some? && WholeDays(now - u.trialStartDate.value) < TrialDays;
      var left := if trial then TrialDays - WholeDays(now - u.trialStartDate.value) else 0;
      var used := UsedToday(u, now, tzOffset);
      Access(trial, left, used, DailyLimit, trial || used < DailyLimit)
  }

  /** The trial is active for exactly the first seven days (in milliseconds) after it started. */
  lemma TrialLastsSevenDays(u: User, now: int, tzOffset: int)
    requires u.trialStartDate.Some?
    ensures AccessGate(Some(u), now, tzOffset).trialActive <==> now - u.trialStartDate.value < TrialDays * MsPerDay
  {
    var d := WholeDays(now - u.trialStartDate.value);
    if d < TrialDays {
      assert (d + 1) * MsPerDay <= TrialDays * MsPerDay;
    } else {
      assert TrialDays * MsPerDay <= d * MsPerDay;
    }
  }

  /** A signed-in user whose last question was on another day can always take a test. */
  lemma NewDayResetsUsage(u: User, now: int, tzOffset: int)
    requires u.lastQuestionDate.None? || LocalDay(u.lastQuestionDate.value, tzOffset) != LocalDay(now, tzOffset)
    ensures AccessGate(Some(u), now, tzOffset).canTakeTest
  {
  }

  /** Outside the trial, the limit is reached exactly at thirty questions answered today. */
  lemma DailyLimitBlocks(u: User, now: int, tzOffset: int)
    requires !AccessGate(Some(u), now, tzOffset).trialActive
    requires u.lastQuestionDate.Some? && LocalDay(u.lastQuestionDate.value, tzOffset) == LocalDay(now, tzOffset)
    ensures AccessGate(Some(u), now, tzOffset).canTakeTest <==> u.dailyQuestionsAnswered.GetOr(0) < DailyLimit
  {
  }

  // ---------------------------------------------------------------- search

  /** The lower-cased title contains the lower-cased query. */
  predicate TitleMatches(e: Exam, lowerQuery: string) {
    Text.Includes(Text.Lower(e.title), lowerQuery)
  }

  /** `filteredExams`: all topics for an empty search, else those whose title contains the search, ignoring case. */
  function FilteredExams(exams: seq<Exam>, search: string): (r: seq<Exam>)
    ensures search == "" ==> r == exams
    ensures search != "" ==> Seqs.SubsequenceOf(r, exams)
    ensures search != "" ==> forall e :: e in r <==> e in exams && TitleMatches(e, Text.Lower(search))
    ensures search != "" ==> forall e :: multiset(r)[e] == if TitleMatches(e, Text.Lower(search)) then multiset(exams)[e] else 0
  {
    if search == "" then exams
    else
      var q := Text.Lower(search);
      var r := Seqs.Filter(exams, e => TitleMatches(e, q));
      forall e ensures e in r <==> e in exams && TitleMatches(e, q) {
        Seqs.FilterMembership(exams, e => TitleMatches(e, q), e);
      }
      r
  }

  // ---------------------------------------------------------------- categories

  /** The fixed categories, each with the topic titles it lists, in display order. */
  const Categories: seq<(string, seq<string>)> := [
    ("Fundamentals & General Requirements", [
      "Code Structure and Scope",
      "Definitions",
      "General Requirements and Working Space"]),
    ("Conductors, Raceways & Wiring", [
      "Conductor Ampacity and Corrections",
      "Wiring Methods \U{2013} General",
      "Raceways",
      "Cable Types",
      "Flexible Cords and Cables"]),
    ("Protection, Grounding & Boxes", [
      "Boxes, Conduit Bodies and Fittings",
      "Overcurrent Protection",
      "Grounding and Bonding",
      "Surge Protection"]),
    ("Circuits & Load Calculations", [
      "Branch Circuits",
      "Feeders",
      "Load Calculations \U{2013} Dwelling",
      "Load Calculations \U{2013} Non-Dwelling",
      "Voltage Drop"]),
    ("Services & Equipment", [
      "Services and Service Equipment",
      "Receptacles, Cord-Connectors and GFCI/AFCI",
      "Luminaires and Lighting",
      "Appliances and Fastened-in-Place Equipment"]),
    ("Specialized Equipment", [
      "Motors, Motor Circuits and Controllers",
      "HVAC and Refrigeration Equipment",
      "Transformers",
      "Generators and Emergency Power",
      "Fire Pumps",
      "Elevators, Escalators and Lifts",
      "Signs and Outline Lighting"]),
    ("Renewable Energy & High Tech", [
      "Electric Vehicle Charging",
      "Energy Storage Systems",
      "Photovoltaic Systems",
      "Fuel Cell Systems"]),
    ("Special Occupancies & Conditions", [
      "Hazardous Locations",
      "Health Care Facilities",
      "Swimming Pools, Spas and Fountains",
      "Marinas and Boatyards",
      "Temporary Installations"]),
    ("Communications & Low Voltage", [
      "Class 1, 2, 3 Remote-Control, Signaling, Power-Limited",
      "Fire Alarm Systems",
      "Optical Fiber Cables",
      "Communications Circuits"]),
    ("Reference, Tables & Markings", [
      "Short-Circuit and Interrupting Ratings",
      "Selective Coordination",
      "Emergency Disconnects",
      "Box Fill, Conduit Fill, Bending, Chapter 9 Tables",
      "Marking, Labeling and Identification"])
  ]

  datatype Group = Group(categoryTitle: string, exams: seq<Exam>)

  /** The position of the last topic with the given title, or -1. */
  function LastIndexOfTitle(exams: seq<Exam>, title: string): (k: int)
    ensures -1 <= k < |exams|
    ensures k >= 0 ==> exams[k].title == title
    ensures forall j :: k < j < |exams| ==> exams[j].title != title
    decreases |exams|
  {
    if |exams| == 0 then -1
    else if exams[|exams| - 1].title == title then |exams| - 1
    else LastIndexOfTitle(exams[..|exams| - 1], title)
  }

  /** `new Map(exams.map(e => [e.title, e])).get(title)`: a later topic with the same title wins. */
  function LastWithTitle(exams: seq<Exam>, title: string): (r: Option<Exam>)
    ensures r.Some? <==> exists i :: 0 <= i < |exams| && exams[i].title == title
    ensures r.Some? ==> r.value in exams && r.value.title == title
    ensures r.Some? ==> r.value == exams[LastIndexOfTitle(exams, title)]
  {
    var k := LastIndexOfTitle(exams, title);
    if k >= 0 then Some(exams[k]) else None
  }

  /** `titles.map(t => map.get(t))`: each listed title looked up in the title map. */
  function Lookups(exams: seq<Exam>, titles: seq<string>): (r: seq<Option<Exam>>)
    ensures |r| == |titles|
    ensures forall m :: 0 <= m < |r| ==> r[m] == LastWithTitle(exams, titles[m])
  {
    seq(|titles|, m requires 0 <= m < |titles| => LastWithTitle(exams, titles[m]))
  }

  /** The topics of one category: `titles.map(t => map.get(t)).filter(Boolean)`. */
  function ExamsWithTitles(exams: seq<Exam>, titles: seq<string>): (r: seq<Exam>)
    ensures |r| <= |titles|
    ensures forall m :: 0 <= m < |r| ==> r[m] in exams && r[m].title in titles
    ensures forall m :: 0 <= m < |r| ==> LastWithTitle(exams, r[m].title) == Some(r[m])
  {
    var r := Seqs.Somes(Lookups(exams, titles));
    forall m | 0 <= m < |r|
      ensures r[m] in exams && r[m].title in titles && LastWithTitle(exams, r[m].title) == Some(r[m])
    {
      var p := Seqs.SomesOrigin(Lookups(exams, titles), m);
    }
    r
  }

  /** Every listed title held by some topic contributes a topic with that title. */
  lemma ExamsWithTitlesComplete(exams: seq<Exam>, titles: seq<string>, t: string, i: nat)
    requires t in titles && i < |exams| && exams[i].title == t
    ensures exists e :: e in ExamsWithTitles(exams, titles) && e.title == t
  {
    var os := Lookups(exams, titles);
    var p :| 0 <= p < |titles| && titles[p] == t;
    assert os[p] == LastWithTitle(exams, t);
    Seqs.SomesComplete(os, p);
    assert os[p].value in ExamsWithTitles(exams, titles);
  }

  /** Where `t` first occurs in `titles`. */
  function IndexIn(titles: seq<string>, t: string): (k: nat)
    requires t in titles
    ensures k < |titles| && titles[k] == t
    ensures forall j :: 0 <= j < k ==> titles[j] != t
  {
    if titles[0] == t then 0 else 1 + IndexIn(titles[1..], t)
  }

  /** No title is listed twice. */
  predicate NoDuplicates(titles: seq<string>) {
    |titles| == 0 || (titles[0] !in titles[1..] && NoDuplicates(titles[1..]))
  }

  /** In a list without repeats, the title at position `p` is first found at `p`. */
  lemma {:induction false} IndexOfDistinct(titles: seq<string>, p: nat)
    requires NoDuplicates(titles) && p < |titles|
    ensures IndexIn(titles, titles[p]) == p
  {
    if p > 0 {
      assert titles[p] == titles[1..][p - 1];
      IndexOfDistinct(titles[1..], p - 1);
    }
  }

  /** Two topics of a category appear in the order of their titles in the category's list. */
  lemma TitleOrderPair(exams: seq<Exam>, titles: seq<string>, i: nat, j: nat)
    requires NoDuplicates(titles) && i < j < |ExamsWithTitles(exams, titles)|
    ensures IndexIn(titles, ExamsWithTitles(exams, titles)[i].title) < IndexIn(titles, ExamsWithTitles(exams, titles)[j].title)
  {
    var os := Lookups(exams, titles);
    var p, q := Seqs.SomesOriginPair(os, i, j);
    assert os[p] == LastWithTitle(exams, titles[p]) && os[q] == LastWithTitle(exams, titles[q]);
    IndexOfDistinct(titles, p);
    IndexOfDistinct(titles, q);
  }

  /** A category lists its topics in its own title order. */
  lemma ExamsFollowTitleOrder(exams: seq<Exam>, titles: seq<string>)
    requires NoDuplicates(titles)
    ensures
      var r := ExamsWithTitles(exams, titles);
      forall i, j :: 0 <= i < j < |r| ==> IndexIn(titles, r[i].title) < IndexIn(titles, r[j].title)
  {
    var r := ExamsWithTitles(exams, titles);
    forall i, j | 0 <= i < j < |r|
      ensures IndexIn(titles, r[i].title) < IndexIn(titles, r[j].title)
    {
      TitleOrderPair(exams, titles, i, j);
    }
  }

  /** Every category with its topics, empty or not, in category order. */
  function AllGroups(cats: seq<(string, seq<string>)>, exams: seq<Exam>): (r: seq<Group>)
    ensures |r| == |cats|
    ensures forall i :: 0 <= i < |cats| ==> r[i] == Group(cats[i].0, ExamsWithTitles(exams, cats[i].1))
  {
    if |cats| == 0 then [] else [Group(cats[0].0, ExamsWithTitles(exams, cats[0].1))] + AllGroups(cats[1..], exams)
  }

  /** `categorizedExams` over a category list: the non-empty groups, in category order. */
  function CategorizeWith(cats: seq<(string, seq<string>)>, exams: seq<Exam>): (r: seq<Group>)
    ensures Seqs.SubsequenceOf(r, AllGroups(cats, exams))
    ensures forall g :: g in r ==> |g.exams| > 0
    ensures forall g :: g in r ==> exists i :: 0 <= i < |cats| && g == Group(cats[i].0, ExamsWithTitles(exams, cats[i].1))
  {
    var all := AllGroups(cats, exams);
    var r := Seqs.Filter(all, (g: Group) => |g.exams| > 0);
    forall g | g in r
      ensures exists i :: 0 <= i < |cats| && g == Group(cats[i].0, ExamsWithTitles(exams, cats[i].1))
    {
      Seqs.FilterMembership(all, (g: Group) => |g.exams| > 0, g);
      var i :| 0 <= i < |all| && all[i] == g;
    }
    r
  }

  /** `categorizedExams` over the fixed categories. */
  function Categorize(exams: seq<Exam>): (r: seq<Group>)
    ensures forall g :: g in r ==> |g.exams| > 0
    ensures forall g, e :: g in r && e in g.exams ==> e in exams
  {
    CategorizeWith(Categories, exams)
  }

  /** A shown topic belongs to the matched list and is listed under its group's category. */
  lemma ShownExamsAreListed(cats: seq<(string, seq<string>)>, exams: seq<Exam>, g: Group, e: Exam)
    requires g in CategorizeWith(cats, exams) && e in g.exams
    ensures e in exams
    ensures exists i :: 0 <= i < |cats| && cats[i].0 == g.categoryTitle && e.title in cats[i].1
  {
  }

  /** A topic whose title no category lists is never shown. */
  lemma UncategorizedNeverShown(exams: seq<Exam>, e: Exam)
    requires forall i :: 0 <= i < |Categories| ==> e.title !in Categories[i].1
    ensures forall g :: g in Categorize(exams) ==> e !in g.exams
  {
    forall g | g in Categorize(exams)
      ensures e !in g.exams
    {
      if e in g.exams {
        ShownExamsAreListed(Categories, exams, g, e);
      }
    }
  }

  /** Every matched topic whose title a category lists is shown (as the last topic with that title) in that category's group. */
  lemma ListedExamsShown(cats: seq<(string, seq<string>)>, exams: seq<Exam>, i: nat, k: nat)
    requires i < |cats| && k < |exams| && exams[k].title in cats[i].1
    ensures exists g :: (g in CategorizeWith(cats, exams) && g.categoryTitle == cats[i].0
                         && exists e :: e in g.exams && e.title == exams[k].title)
  {
    var all := AllGroups(cats, exams);
    var g := all[i];
    ExamsWithTitlesComplete(exams, cats[i].1, exams[k].title, k);
    Seqs.FilterMembership(all, (g: Group) => |g.exams| > 0, g);
  }

  // ---------------------------------------------------------------- overall progress

  /** `exams.reduce((s, e) => s + e.num_questions, 0)`. */
  function SumQuestions(exams: seq<Exam>): (n: nat)
    ensures forall e :: e in exams ==> e.numQuestions <= n
  {
    if |exams| == 0 then 0 else exams[0].numQuestions + SumQuestions(exams[1..])
  }

  /** The sum of `correct` over the stored progress entries; a sum does not depend on the order of the entries. */
  ghost function SumCorrect(p: Progress): nat
    decreases |p|
  {
    if p == map[] then 0
    else
      var k :| k in p;
      p[k].correct + SumCorrect(p - {k})
  }

  /** Any entry can be taken out of the sum first. */
  lemma {:induction false} SumCorrectRemove(p: Progress, k: string)
    requires k in p
    ensures SumCorrect(p) == p[k].correct + SumCorrect(p - {k})
    decreases |p|
  {
    var k' :| k' in p && SumCorrect(p) == p[k'].correct + SumCorrect(p - {k'});
    if k' != k {
      var a := p - {k'};
      var b := p - {k};
      SumCorrectRemove(a, k);
      SumCorrectRemove(b, k');
      assert a - {k} == b - {k'};
    }
  }

  /** Saving a result changes the overall correct count by the difference to the entry it replaces. */
  lemma SumCorrectAfterSave(p: Progress, id: string, d: ProgressData)
    ensures SumCorrect(p[id := d]) + (if id in p then p[id].correct else 0) == SumCorrect(p) + d.correct
  {
    SumCorrectRemove(p[id := d], id);
    assert p[id := d] - {id} == p - {id};
    if id in p {
      SumCorrectRemove(p, id);
    } else {
      assert p - {id} == p;
    }
  }

  datatype Overall = Overall(totalPossible: nat, totalCorrect: nat, percent: nat)

  /**
   * `overall`: total questions over the listed topics, total correct over
   * the stored progress, and the rounded percentage (0 with nothing possible).
   */
  method ComputeOverall(exams: seq<Exam>, progress: Progress) returns (o: Overall)
    ensures o.totalPossible == SumQuestions(exams) && o.totalCorrect == SumCorrect(progress)
    ensures o.totalPossible == 0 ==> o.percent == 0
    ensures o.totalPossible > 0 ==>
      2 * o.totalPossible * o.percent <= 200 * o.totalCorrect + o.totalPossible < 2 * o.totalPossible * (o.percent + 1)
  {
    var rest := progress;
    var correct := 0;
    while rest != map[]
      invariant correct + SumCorrect(rest) == SumCorrect(progress)
      decreases |rest|
    {
      var k :| k in rest;
      SumCorrectRemove(rest, k);
      correct := correct + rest[k].correct;
      rest := rest - {k};
    }
    var possible := SumQuestions(exams);
    o := Overall(possible, correct, Percent.RoundedPercent(correct, possible));
  }

  // ---------------------------------------------------------------- topic card

  /** A rounded JavaScript number as the topic card can see it: dividing by zero questions gives Infinity or NaN. */
  datatype Shown = Finite(n: int) | Infinity | NaN

  /** The card's percentage: 0 without progress, else the rounded score over the topic's question count. */
  function TopicPercent(exam: Exam, progress: Progress): (s: Shown)
    ensures exam.id !in progress ==> s == Finite(0)
    ensures exam.id in progress && exam.numQuestions > 0 ==>
      s == Finite(Percent.RoundedPercent(progress[exam.id].correct, exam.numQuestions))
    ensures exam.id in progress && exam.numQuestions == 0 ==>
      (s.Infinity? <==> progress[exam.id].correct > 0) && (s.NaN? <==> progress[exam.id].correct == 0)
  {
    if exam.id !in progress then Finite(0)
    else if exam.numQuestions > 0 then Finite(Percent.RoundedPercent(progress[exam.id].correct, exam.numQuestions))
    else if progress[exam.id].correct > 0 then Infinity
    else NaN
  }

  datatype Colour = Green | Yellow | Red

  /** `> 70` green, `>= 40` yellow, otherwise red; comparisons with NaN are false. */
  function TopicColour(s: Shown): (c: Colour)
    ensures c == Green <==> s.Infinity? || (s.Finite? && s.n > 70)
    ensures c == Yellow <==> s.Finite? && 40 <= s.n <= 70
    ensures c == Red <==> s.NaN? || (s.Finite? && s.n < 40)
  {
    match s
    case Finite(n) => if n > 70 then Green else if n >= 40 then Yellow else Red
    case Infinity => Green
    case NaN => Red
  }

  /** A topic without progress is shown red at 0%. */
  lemma NoProgressIsRed(exam: Exam, progress: Progress)
    requires exam.id !in progress
    ensures TopicColour(TopicPercent(exam, progress)) == Red
  {
  }

  /** With a real question count, a better stored score never gives a worse colour. */
  lemma ColourMonotonic(exam: Exam, p: Progress, q: Progress)
    requires exam.numQuestions > 0 && exam.id in p && exam.id in q && p[exam.id].correct <= q[exam.id].correct
    ensures TopicColour(TopicPercent(exam, p)) == Green ==> TopicColour(TopicPercent(exam, q)) == Green
    ensures TopicColour(TopicPercent(exam, p)) == Yellow ==> TopicColour(TopicPercent(exam, q)) != Red
  {
    Percent.RoundedPercentMonotonic(p[exam.id].correct, q[exam.id].correct, exam.numQuestions);
  }

  // ---------------------------------------------------------------- accordion

  /** The accordion effect: typing opens the first group shown; clearing the search closes all. */
  function AutoOpen(search: string, groups: seq<Group>, open: Option<string>): (r: Option<string>)
    ensures search != "" && |groups| > 0 ==> r == Some(groups[0].categoryTitle)
    ensures search == "" ==> r == None
    ensures search != "" && |groups| == 0 ==> r == open
  {
    if search != "" && |groups| > 0 then Some(groups[0].categoryTitle)
    else if search == "" then None
    else open
  }

  /** Clicking a group header closes it when open and otherwise opens it alone. */
  function ToggleAccordion(open: Option<string>, title: string): (r: Option<string>)
    ensures r == Some(title) <==> open != Some(title)
    ensures r.None? <==> open == Some(title)
  {
    if open == Some(title) then None else Some(title)
  }

  /** Clicking the same header twice from a closed or same-titled state restores it. */
  lemma ToggleTwice(open: Option<string>, title: string)
    requires open.None? || open == Some(title)
    ensures ToggleAccordion(ToggleAccordion(open, title), title) == open
  {
  }
}
