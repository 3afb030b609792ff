/** The data behind the three charts of the charts page (js/charts.js): the
    daily trend, the members per class and the attendance rate, over the
    range from seven days ago to today. The clock is an input. */
module Charts {
  import opened Wrappers
  import opened Calendar
  import Numbers
  import Utils
  import Ui
  import MemberModel

  // ---------------------------------------------------------------- range

  /** `getDateXDaysAgo(days)`. */
  function DateDaysAgo(k: Clock, days: int): string
    requires ValidClock(k)
  {
    Utils.DateKey(AddDays(k.today, -days))
  }

  /** The range `updateCharts` asks the summary for. */
  function ChartRange(k: Clock): Ui.Range
    requires ValidClock(k)
  {
    Ui.Range(DateDaysAgo(k, 7), Utils.DateKey(k.today))
  }

  /** The range starts on the day seven days before today and ends today, so
      it spans eight days. */
  lemma ChartRangeSpec(k: Clock)
    requires ValidClock(k)
    ensures var start := AddDays(k.today, -7);
      && ChartRange(k) == Ui.Range(Utils.DateKey(start), Utils.DateKey(k.today))
      && AddDays(start, 7) == k.today
  {
    AddDaysAdd(k.today, -7, 7);
  }

  // ---------------------------------------------------------------- trend

  datatype Trend = Trend(dates: seq<string>, present: seq<int>, late: seq<int>, absent: seq<int>)

  function Presents(summary: seq<Ui.Day>): (r: seq<int>)
    ensures |r| == |summary|
  {
    seq(|summary|, i requires 0 <= i < |summary| => summary[i].present)
  }

  /** `prepareTrendData(summary)`: four arrays, entry `i` of each from day `i`;
      `render(d)` is how the page renders `new Date(d)` (see `DayMonthFormat`). */
  method PrepareTrendData(summary: seq<Ui.Day>, render: string -> string) returns (t: Trend)
    ensures |t.dates| == |summary| && |t.late| == |summary| && |t.absent| == |summary|
    ensures t.present == Presents(summary)
    ensures forall i :: 0 <= i < |summary| ==>
      t.dates[i] == render(summary[i].date) && t.late[i] == summary[i].late && t.absent[i] == summary[i].absent
  {
    var dates, present, late, absent := [], [], [], [];
    var i := 0;
    while i < |summary|
      invariant 0 <= i <= |summary|
      invariant |dates| == i && |present| == i && |late| == i && |absent| == i
      invariant forall j :: 0 <= j < i ==>
        && dates[j] == render(summary[j].date) && present[j] == summary[j].present
        && late[j] == summary[j].late && absent[j] == summary[j].absent
    {
      var day := summary[i];
      dates := dates + [render(day.date)];
      present := present + [day.present];
      late := late + [day.late];
      absent := absent + [day.absent];
      i := i + 1;
    }
    t := Trend(dates, present, late, absent);
  }

  /** `'DD/MM'` is not one of the formats `formatDate` knows, so the trend's
      labels are the browser's default rendering of each date. */
  lemma DayMonthFormat(c: Civil, locale: Utils.LocaleText)
    ensures Utils.FormatDate(c, "DD/MM", locale) == locale.browserDefault
  {
    assert "DD/MM" != "pt-BR" && "DD/MM" != "YYYY-MM-DD" && "DD/MM" != "DD/MM/YYYY" by {
      assert |"DD/MM"| == 5 && |"YYYY-MM-DD"| == 10 && |"DD/MM/YYYY"| == 10;
      assert "DD/MM"[0] != "pt-BR"[0];
    }
  }

  function Total(xs: seq<int>): int {
    if xs == [] then 0 else Total(xs[..|xs| - 1]) + xs[|xs| - 1]
  }

  /** The trend's present column adds up to the present total of the summary. */
  lemma {:induction false} TrendAddsUp(summary: seq<Ui.Day>)
    ensures Total(Presents(summary)) == Ui.Sum(summary).present
    decreases |summary|
  {
    if summary != [] {
      var n := |summary| - 1;
      TrendAddsUp(summary[..n]);
      assert Presents(summary)[..n] == Presents(summary[..n]);
    }
  }

  // ---------------------------------------------------------------- distribution

  /** `member.class || 'Sem Turma'`. */
  function Label(m: MemberModel.Member): string {
    if m.className.Some? && m.className.value != "" then m.className.value else "Sem Turma"
  }

  /** How many members carry label `l`. */
  function CountOf(members: seq<MemberModel.Member>, l: string): nat {
    if members == [] then 0
    else CountOf(members[..|members| - 1], l) + (if Label(members[|members| - 1]) == l then 1 else 0)
  }

  /** The labels in order of first appearance, as `Object.keys` lists them. */
  function Labels(members: seq<MemberModel.Member>): seq<string> {
    if members == [] then []
    else
      var front := Labels(members[..|members| - 1]);
      var l := Label(members[|members| - 1]);
      if l in front then front else front + [l]
  }

  /** `prepareDistributionData(members)`: one label per class, with its
      member count, built by counting into `classCount`. */
  method PrepareDistributionData(members: seq<MemberModel.Member>) returns (labels: seq<string>, values: seq<int>)
    ensures labels == Labels(members)
    ensures |values| == |labels| && forall i :: 0 <= i < |labels| ==> values[i] == CountOf(members, labels[i])
  {
    var classCount: map<string, int> := map[];
    labels := [];
    var i := 0;
    while i < |members|
      invariant 0 <= i <= |members|
      invariant labels == Labels(members[..i])
      invariant forall l :: l in classCount <==> l in labels
      invariant forall l :: l in classCount ==> classCount[l] == CountOf(members[..i], l)
    {
      assert members[..i + 1][..i] == members[..i];
      var className := Label(members[i]);
      ghost var before := classCount;
      LabelsSpec(members[..i], className);
      if className !in classCount {
        labels := labels + [className];
      }
      var previous := if className in classCount then classCount[className] else 0;
      classCount := classCount[className := previous + 1];
      forall l | l in classCount ensures classCount[l] == CountOf(members[..i + 1], l) {
        var next := members[..i + 1];
        assert next[..i] == members[..i] && next[i] == members[i];
        assert CountOf(next, l) == CountOf(members[..i], l) + (if className == l then 1 else 0);
        if l != className {
          assert l in before && classCount[l] == before[l];
        }
      }
      i := i + 1;
    }
    assert members[..i] == members;
    values := seq(|labels|, j requires 0 <= j < |labels| => classCount[labels[j]]);
  }

  predicate Distinct(xs: seq<string>) {
    forall i, j :: 0 <= i < j < |xs| ==> xs[i] != xs[j]
  }

  /** A label is listed exactly when some member carries it, and no label is
      listed twice. */
  lemma {:induction false} LabelsSpec(members: seq<MemberModel.Member>, l: string)
    ensures l in Labels(members) <==> CountOf(members, l) > 0
    ensures Distinct(Labels(members))
    decreases |members|
  {
    if members != [] {
      var n := |members| - 1;
      LabelsSpec(members[..n], l);
      LabelsSpec(members[..n], Label(members[n]));
    }
  }

  /** The counts of a distinct list of labels, added up. */
  function SumCounts(labels: seq<string>, members: seq<MemberModel.Member>): int {
    if labels == [] then 0
    else SumCounts(labels[..|labels| - 1], members) + CountOf(members, labels[|labels| - 1])
  }

  /** One more member adds one to the sum over distinct labels when the list
      holds its label, and nothing otherwise. */
  lemma {:induction false} SumCountsSnoc(labels: seq<string>, members: seq<MemberModel.Member>)
    requires members != [] && Distinct(labels)
    ensures var n := |members| - 1;
      SumCounts(labels, members)
      == SumCounts(labels, members[..n]) + (if Label(members[n]) in labels then 1 else 0)
    decreases |labels|
  {
    if labels != [] {
      var k := |labels| - 1;
      var front := labels[..k];
      assert Distinct(front);
      SumCountsSnoc(front, members);
      assert Label(members[|members| - 1]) in labels <==>
        Label(members[|members| - 1]) in front || labels[k] == Label(members[|members| - 1]) by {
        assert labels == front + [labels[k]];
      }
      assert labels[k] !in front;
    }
  }

  /** The distribution's values add up to the number of members. */
  lemma {:induction false} DistributionAddsUp(members: seq<MemberModel.Member>)
    ensures SumCounts(Labels(members), members) == |members|
    decreases |members|
  {
    if members != [] {
      var n := |members| - 1;
      var front := Labels(members[..n]);
      var l := Label(members[n]);
      DistributionAddsUp(members[..n]);
      LabelsSpec(members[..n], l);
      LabelsSpec(members, l);
      SumCountsSnoc(front, members);
      if l !in front {
        assert (front + [l])[..|front|] == front;
      }
    }
  }

  // ---------------------------------------------------------------- rate

  /** Counts as the database's `COUNT`s give them: never negative. */
  predicate Counted(d: Ui.Day) {
    0 <= d.present && 0 <= d.late && 0 <= d.absent
  }

  const RateLabels := ["Presentes", "Atrasados", "Faltas"]

  /** `prepareRateData(summary)`: the three totals over the summary, each as a
      percentage of their sum; `Math.round(0 / 0 * 100) || 0` is 0. */
  method PrepareRateData(summary: seq<Ui.Day>) returns (labels: seq<string>, values: seq<int>)
    requires forall i :: 0 <= i < |summary| ==> Counted(summary[i])
    ensures labels == RateLabels
    ensures var t := Ui.Sum(summary);
      var total := t.present + t.late + t.absent;
      values == [Numbers.Percent(t.present, total), Numbers.Percent(t.late, total), Numbers.Percent(t.absent, total)]
  {
    var totalPresent, totalLate, totalAbsent := 0, 0, 0;
    var i := 0;
    while i < |summary|
      invariant 0 <= i <= |summary|
      invariant var t := Ui.Sum(summary[..i]);
        t.present == totalPresent && t.late == totalLate && t.absent == totalAbsent
    {
      assert summary[..i + 1][..i] == summary[..i];
      totalPresent := totalPresent + summary[i].present;
      totalLate := totalLate + summary[i].late;
      totalAbsent := totalAbsent + summary[i].absent;
      i := i + 1;
    }
    assert summary[..i] == summary;
    var total := totalPresent + totalLate + totalAbsent;
    labels := RateLabels;
    values := [Numbers.Percent(totalPresent, total), Numbers.Percent(totalLate, total), Numbers.Percent(totalAbsent, total)];
  }

  /** Totals of counted days are not negative. */
  lemma {:induction false} SumCounted(summary: seq<Ui.Day>)
    requires forall i :: 0 <= i < |summary| ==> Counted(summary[i])
    ensures var t := Ui.Sum(summary); 0 <= t.present && 0 <= t.late && 0 <= t.absent
    decreases |summary|
  {
    if summary != [] {
      SumCounted(summary[..|summary| - 1]);
      assert Counted(summary[|summary| - 1]);
    }
  }

  /** Three parts of a positive whole round to percentages adding up to
      between 99 and 101. */
  lemma RoundedPartsNearHundred(a: int, b: int, c: int)
    requires 0 <= a && 0 <= b && 0 <= c && a + b + c > 0
    ensures var total := a + b + c;
      99 <= Numbers.Percent(a, total) + Numbers.Percent(b, total) + Numbers.Percent(c, total) <= 101
  {
    var total := a + b + c;
    var t2 := 2 * total;
    var s := Numbers.RoundPercent(a, total) + Numbers.RoundPercent(b, total) + Numbers.RoundPercent(c, total);
    assert t2 * s - 3 * total <= 200 * total < t2 * s + 3 * total;
    if s > 101 {
      Numbers.MulLe(t2, 102, s);
    }
    if s < 99 {
      Numbers.MulLe(t2, s, 98);
    }
  }

  /** Each rate lies between 0 and 100, all are 0 when nothing was counted,
      and otherwise they add up to 100 give or take the rounding of each. */
  lemma RatesSpec(summary: seq<Ui.Day>)
    requires forall i :: 0 <= i < |summary| ==> Counted(summary[i])
    ensures var t := Ui.Sum(summary);
      var total := t.present + t.late + t.absent;
      var p, l, a := Numbers.Percent(t.present, total), Numbers.Percent(t.late, total), Numbers.Percent(t.absent, total);
      && 0 <= p <= 100 && 0 <= l <= 100 && 0 <= a <= 100
      && (total == 0 ==> p == 0 && l == 0 && a == 0)
      && (total > 0 ==> 99 <= p + l + a <= 101)
  {
    var t := Ui.Sum(summary);
    var total := t.present + t.late + t.absent;
    SumCounted(summary);
    Numbers.PercentBounds(t.present, total);
    Numbers.PercentBounds(t.late, total);
    Numbers.PercentBounds(t.absent, total);
    if total > 0 {
      RoundedPartsNearHundred(t.present, t.late, t.absent);
    }
  }
}
