/**
 * The recommendation rules of the student dashboard (`generate_recommendations`):
 * up to three advisories in a fixed order, read off the collections that
 * `get_student_data` returns, and an encouragement when none applies.
 */
module Dashboard {
  import opened Base
  import opened Strings
  import opened Json

  /** The four kinds of recommendation, in the order the list gives them. */
  datatype Topic = Performance | Presence | Resources | Encouragement

  /** A recommendation card; its `title` is fixed by its topic. */
  datatype Recommendation = Recommendation(topic: Topic, description: string, action: string)

  /** What `get_student_data` returns: documents by collection name. */
  type StudentData = map<string, seq<Doc>>

  /** `student_data.get(name, [])` */
  function Section(data: StudentData, name: string): seq<Doc> {
    if name in data then data[name] else []
  }

  function Enrollments(data: StudentData): seq<Doc> {
    Section(data, "canvas_enrollments")
  }

  function Attendance(data: StudentData): seq<Doc> {
    Section(data, "attendance_records")
  }

  function Checkouts(data: StudentData): seq<Doc> {
    Section(data, "library_checkouts")
  }

  const PassingScore: real := 70.0
  const AttendanceTarget: nat := 80
  const LibraryMinimum: nat := 5

  const PerformanceTitle: string := "Improve Academic Performance"
  const AttendanceTitle: string := "Improve Attendance"
  const ResourceTitle: string := "Increase Resource Usage"
  const EncouragementTitle: string := "Keep Up the Great Work!"

  const PerformanceAction: string := "Schedule office hours with instructors or visit the tutoring center."
  const AttendanceAction: string := "Set reminders for classes and prioritize attendance."
  const ResourceDescription: string :=
    "Low library resource usage detected. Additional resources can enhance learning."
  const ResourceAction: string := "Explore library databases and check out relevant books for your courses."
  const EncouragementDescription: string :=
    "Your academic performance looks good. Continue with your current study habits."
  const EncouragementAction: string :=
    "Consider challenging yourself with additional projects or advanced courses."

  /** `e.get('current_score', 100)`: a missing score counts as full marks. */
  function ScoreOf(e: Doc): Value {
    GetOr(e, "current_score", Num(100.0))
  }

  /** `score < 70` raises `TypeError` unless the score is a number or a `bool`. */
  predicate Comparable(v: Value) {
    v.Num? || v.Bool?
  }

  /** `score < 70` for a comparable score; `True` and `False` compare as 1 and 0. */
  predicate BelowPassing(v: Value)
    requires Comparable(v)
  {
    match v
    case Num(n) => n < PassingScore
    case Bool(_) => true
  }

  predicate Low(e: Doc)
    requires Comparable(ScoreOf(e))
  {
    BelowPassing(ScoreOf(e))
  }

  /** Some course score that `< 70` cannot compare. */
  predicate Incomparable(enrollments: seq<Doc>) {
    exists i :: 0 <= i < |enrollments| && !Comparable(ScoreOf(enrollments[i]))
  }

  /** The positions of the comparable scores below passing. */
  function LowPositions(enrollments: seq<Doc>): set<nat> {
    Positions(enrollments, e => LowScore(ScoreOf(e)))
  }

  /**
   * `len([e for e in enrollments if e.get('current_score', 100) < 70])`: the
   * number of courses below passing, or `TypeError` when a score cannot be
   * compared.
   */
  function LowScoreCount(enrollments: seq<Doc>): (r: Result<nat>)
    ensures r.Err? <==> Incomparable(enrollments)
    ensures r.Ok? ==> r.value == |LowPositions(enrollments)|
    ensures r.Ok? ==> r.value <= |enrollments|
    ensures r.Ok? ==> (r.value == 0 <==> forall i :: 0 <= i < |enrollments| ==> !Low(enrollments[i]))
    decreases |enrollments|
  {
    if enrollments == [] then
      assert LowPositions(enrollments) == {};
      Ok(0)
    else
      var n := |enrollments| - 1;
      IncomparableSnoc(enrollments);
      match LowScoreCount(enrollments[..n])
      case Err(e) => Err(e)
      case Ok(k) =>
        if !Comparable(ScoreOf(enrollments[n])) then Err("TypeError")
        else
          LowCountStep(enrollments, k);
          var m: nat := k + (if Low(enrollments[n]) then 1 else 0);
          Ok(m)
  }

  lemma IncomparableSnoc(enrollments: seq<Doc>)
    requires enrollments != []
    ensures var n := |enrollments| - 1;
      Incomparable(enrollments) <==> Incomparable(enrollments[..n]) || !Comparable(ScoreOf(enrollments[n]))
  {
    var n := |enrollments| - 1;
    assert forall i :: 0 <= i < n ==> enrollments[..n][i] == enrollments[i];
  }

  /** Comparable and below passing. */
  predicate LowScore(v: Value) {
    Comparable(v) && BelowPassing(v)
  }

  /** The positions of `xs` whose element satisfies `p`. */
  function Positions<T>(xs: seq<T>, p: T -> bool): set<nat> {
    set i: nat | i < |xs| && p(xs[i])
  }

  /** One more element adds its position exactly when it satisfies `p`. */
  lemma PositionsSnoc<T>(xs: seq<T>, p: T -> bool)
    requires xs != []
    ensures |Positions(xs, p)| == |Positions(xs[..|xs| - 1], p)| + (if p(xs[|xs| - 1]) then 1 else 0)
  {
    var n := |xs| - 1;
    var init := xs[..n];
    var extra: set<nat> := if p(xs[n]) then {n} else {};
    forall x: nat
      ensures x in Positions(xs, p) <==> x in Positions(init, p) + extra
    {
      if x < n {
        assert init[x] == xs[x];
      }
    }
    assert Positions(xs, p) == Positions(init, p) + extra;
    assert n !in Positions(init, p);
  }

  /** The counted step of `LowScoreCount`. */
  lemma LowCountStep(enrollments: seq<Doc>, k: nat)
    requires enrollments != [] && !Incomparable(enrollments)
    requires k == |LowPositions(enrollments[..|enrollments| - 1])|
    ensures var m := k + (if Low(enrollments[|enrollments| - 1]) then 1 else 0);
      && m == |LowPositions(enrollments)|
      && m <= |enrollments|
      && (m == 0 <==> forall i :: 0 <= i < |enrollments| ==> !Low(enrollments[i]))
  {
    PositionsSnoc(enrollments, e => LowScore(ScoreOf(e)));
    NoLowPositions(enrollments);
    PositionsBound(enrollments, e => LowScore(ScoreOf(e)));
  }

  lemma PositionsBound<T>(xs: seq<T>, p: T -> bool)
    ensures |Positions(xs, p)| <= |xs|
    decreases |xs|
  {
    if xs != [] {
      PositionsSnoc(xs, p);
      PositionsBound(xs[..|xs| - 1], p);
    }
  }

  /** No low position is no low score. */
  lemma NoLowPositions(enrollments: seq<Doc>)
    ensures LowPositions(enrollments) == {} <==>
      forall i :: 0 <= i < |enrollments| ==> !LowScore(ScoreOf(enrollments[i]))
  {
    var p := e => LowScore(ScoreOf(e));
    if LowPositions(enrollments) == {} {
      forall i | 0 <= i < |enrollments|
        ensures !LowScore(ScoreOf(enrollments[i]))
      {
        assert i !in Positions(enrollments, p);
      }
    } else {
      var x :| x in Positions(enrollments, p);
      assert p(enrollments[x]);
    }
  }

  /** How many attendance records have `status == 'present'`. */
  function PresentCount(attendance: seq<Doc>): (r: nat)
    ensures r <= |attendance|
  {
    if attendance == [] then 0
    else (if Get(attendance[0], "status") == Some(Str("present")) then 1 else 0) + PresentCount(attendance[1..])
  }

  /** `present / total * 100 < 80`, in exact arithmetic. */
  predicate PoorAttendance(attendance: seq<Doc>) {
    attendance != [] && PresentCount(attendance) * 100 < AttendanceTarget * |attendance|
  }

  predicate FewCheckouts(library: seq<Doc>) {
    |library| < LibraryMinimum
  }

  function PerformanceAdvice(low: nat): Recommendation {
    Recommendation(Performance,
      "You have " + NatToString(low) + " courses with scores below 70%. Consider seeking additional help.",
      PerformanceAction)
  }

  /** `rate` renders `present / total * 100` with one decimal, as `{attendance_rate:.1f}` does. */
  function AttendanceAdvice(rate: (nat, nat) -> string, present: nat, total: nat): Recommendation {
    Recommendation(Presence,
      "Your attendance rate is " + rate(present, total) + "%. Regular attendance is crucial for success.",
      AttendanceAction)
  }

  const ResourceAdvice: Recommendation := Recommendation(Resources, ResourceDescription, ResourceAction)

  const Encouraged: Recommendation :=
    Recommendation(Encouragement, EncouragementDescription, EncouragementAction)

  function Title(t: Topic): string {
    match t
    case Performance => PerformanceTitle
    case Presence => AttendanceTitle
    case Resources => ResourceTitle
    case Encouragement => EncouragementTitle
  }

  /** The position of each topic in the list. */
  function Rank(t: Topic): nat {
    match t
    case Performance => 0
    case Presence => 1
    case Resources => 2
    case Encouragement => 3
  }

  /** The three topics that depend on a condition. */
  predicate Conditional(t: Topic) {
    t != Encouragement
  }

  predicate HasTopic(rs: seq<Recommendation>, t: Topic) {
    exists i :: 0 <= i < |rs| && rs[i].topic == t
  }

  /** Some course score is below 70. */
  predicate AnyLow(enrollments: seq<Doc>) {
    exists i :: 0 <= i < |enrollments| && Comparable(ScoreOf(enrollments[i])) && Low(enrollments[i])
  }

  /**
   * The list of recommendations for the three conditions: one to three
   * entries in the fixed order, each advisory present exactly when its
   * condition holds, and the encouragement exactly when none does, then alone.
   */
  predicate Recommends(r: seq<Recommendation>, low: bool, poor: bool, few: bool) {
    && 1 <= |r| <= 3
    && (forall i, j :: 0 <= i < j < |r| ==> Rank(r[i].topic) < Rank(r[j].topic))
    && (HasTopic(r, Performance) <==> low)
    && (HasTopic(r, Presence) <==> poor)
    && (HasTopic(r, Resources) <==> few)
    && (HasTopic(r, Encouragement) <==> !low && !poor && !few)
    && (HasTopic(r, Encouragement) ==> r == [Encouraged])
  }

  /**
   * `generate_recommendations`: the performance advisory when some course
   * score is below 70, the attendance advisory when fewer than 80% of the
   * attendance records are `present`, the resource advisory when there are
   * fewer than five library checkouts, in that order, and the encouragement
   * exactly when none of them applies.
   */
  function GenerateRecommendations(data: StudentData, rate: (nat, nat) -> string): (r: Result<seq<Recommendation>>)
    ensures r.Err? <==> Incomparable(Enrollments(data))
    ensures r.Ok? ==> Recommends(r.value, AnyLow(Enrollments(data)), PoorAttendance(Attendance(data)),
                                 FewCheckouts(Checkouts(data)))
  {
    match LowScoreCount(Enrollments(data))
    case Err(e) => Err(e)
    case Ok(low) =>
      var advice := Advice(low, Attendance(data), Checkouts(data), rate);
      var out := if advice == [] then [Encouraged] else advice;
      assert AnyLow(Enrollments(data)) <==> low > 0;
      Completed(advice, out, AnyLow(Enrollments(data)), PoorAttendance(Attendance(data)), FewCheckouts(Checkouts(data)));
      Ok(out)
  }

  /** The performance advisory, when given, comes first and says how many courses are below 70. */
  lemma PerformanceAdviceFirst(data: StudentData, rate: (nat, nat) -> string)
    requires GenerateRecommendations(data, rate).Ok? && AnyLow(Enrollments(data))
    ensures LowScoreCount(Enrollments(data)).Ok?
    ensures GenerateRecommendations(data, rate).value[0]
         == PerformanceAdvice(LowScoreCount(Enrollments(data)).value)
  {
    var low := LowScoreCount(Enrollments(data)).value;
    var advice := Advice(low, Attendance(data), Checkouts(data), rate);
    assert low > 0;
    assert advice != [];
    assert GenerateRecommendations(data, rate) == Ok(advice);
  }

  /** Adding the encouragement to an empty list of advisories keeps the order and makes it the only entry. */
  lemma Completed(advice: seq<Recommendation>, out: seq<Recommendation>, p: bool, a: bool, l: bool)
    requires out == if advice == [] then [Encouraged] else advice
    requires |advice| <= 3
    requires forall i, j :: 0 <= i < j < |advice| ==> Rank(advice[i].topic) < Rank(advice[j].topic)
    requires HasTopic(advice, Performance) <==> p
    requires HasTopic(advice, Presence) <==> a
    requires HasTopic(advice, Resources) <==> l
    requires forall i :: 0 <= i < |advice| ==> Conditional(advice[i].topic)
    ensures Recommends(out, p, a, l)
  {
    if advice == [] {
      assert [Encouraged][0].topic == Encouragement;
    } else {
      assert Conditional(advice[0].topic);
    }
  }

  /** The three advisories that apply, in order. */
  function Advice(low: nat, attendance: seq<Doc>, library: seq<Doc>, rate: (nat, nat) -> string)
    : (r: seq<Recommendation>)
    ensures |r| <= 3
    ensures forall i, j :: 0 <= i < j < |r| ==> Rank(r[i].topic) < Rank(r[j].topic)
    ensures HasTopic(r, Performance) <==> low > 0
    ensures HasTopic(r, Presence) <==> PoorAttendance(attendance)
    ensures HasTopic(r, Resources) <==> FewCheckouts(library)
    ensures forall i :: 0 <= i < |r| ==> Conditional(r[i].topic)
    ensures low > 0 ==> r[0] == PerformanceAdvice(low)
  {
    var performance := if low > 0 then [PerformanceAdvice(low)] else [];
    var presence := if PoorAttendance(attendance)
                    then [AttendanceAdvice(rate, PresentCount(attendance), |attendance|)] else [];
    var resources := if FewCheckouts(library) then [ResourceAdvice] else [];
    Topics(performance, presence, resources);
    assert low > 0 ==> (performance + presence + resources)[0] == performance[0];
    performance + presence + resources
  }

  /** The topics of the concatenated advisories, by position. */
  lemma Topics(p: seq<Recommendation>, a: seq<Recommendation>, l: seq<Recommendation>)
    requires |p| <= 1 && |a| <= 1 && |l| <= 1
    requires forall i :: 0 <= i < |p| ==> p[i].topic == Performance
    requires forall i :: 0 <= i < |a| ==> a[i].topic == Presence
    requires forall i :: 0 <= i < |l| ==> l[i].topic == Resources
    ensures var all := p + a + l;
      && (forall i, j :: 0 <= i < j < |all| ==> Rank(all[i].topic) < Rank(all[j].topic))
      && (HasTopic(all, Performance) <==> p != [])
      && (HasTopic(all, Presence) <==> a != [])
      && (HasTopic(all, Resources) <==> l != [])
      && (forall i :: 0 <= i < |all| ==> Conditional(all[i].topic))
  {
    var all := p + a + l;
    forall i | 0 <= i < |all|
      ensures all[i].topic == Performance ==> i < |p|
      ensures all[i].topic == Presence ==> |p| <= i < |p| + |a|
      ensures all[i].topic == Resources ==> |p| + |a| <= i
      ensures Conditional(all[i].topic)
    {
      if i < |p| {
        assert all[i] == p[i];
      } else if i < |p| + |a| {
        assert all[i] == a[i - |p|];
      } else {
        assert all[i] == l[i - |p| - |a|];
      }
    }
    if p != [] {
      assert all[0] == p[0];
    }
    if a != [] {
      assert all[|p|] == a[0];
    }
    if l != [] {
      assert all[|p| + |a|] == l[0];
    }
  }

  /** With no low score, a good attendance record and five checkouts, only the encouragement is given. */
  lemma GoodStandingIsEncouraged(data: StudentData, rate: (nat, nat) -> string)
    requires forall i :: 0 <= i < |Enrollments(data)| ==>
      Comparable(ScoreOf(Enrollments(data)[i])) && !Low(Enrollments(data)[i])
    requires !PoorAttendance(Attendance(data))
    requires !FewCheckouts(Checkouts(data))
    ensures GenerateRecommendations(data, rate) == Ok([Encouraged])
  {
    var r := GenerateRecommendations(data, rate);
    assert r.Ok?;
    assert !AnyLow(Enrollments(data));
  }

  /** A course without a `current_score` never triggers the performance advisory. */
  lemma MissingScoreIsNotLow(e: Doc)
    requires "current_score" !in Keys(e)
    ensures Comparable(ScoreOf(e)) && !Low(e)
  {
  }
}
