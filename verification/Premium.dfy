/** Premium pay of one timesheet entry: paid holidays and premium rules. Multipliers and units are
    whole hundredths, the precision to which the code rounds every amount. */
module Premium {
  import opened Time
  import opened Wrappers
  import opened Metrics
  import opened TimeWindow
  import opened Sums

  datatype Place = Place(node: Option<nat>, costCenter: Option<nat>, position: Option<nat>, location: Option<string>)

  datatype Entry = Entry(
    payable: nat, workDate: int, clockIn: Option<int>, clockOut: Option<int>, assignment: Option<Place>)

  datatype Holiday = Holiday(name: string, date: int, paid: bool, multiplier: nat)

  datatype RuleType = HolidayRule | WeekendRule | NightRule | ShiftDifferential | CustomRule

  type MinuteOfDay = m: nat | m < 1440

  datatype Rule = Rule(
    name: string, kind: RuleType, multiplier: nat,
    startsAt: Option<MinuteOfDay>, endsAt: Option<MinuteOfDay>,
    weekdays: seq<nat>,
    node: Option<nat>, costCenter: Option<nat>, position: Option<nat>, location: Option<string>,
    effectiveFrom: Option<int>, effectiveTo: Option<int>)

  datatype Label = Label(name: string, multiplier: nat)

  /** 0 is Sunday; the epoch was a Thursday. */
  function WeekdayOf(t: int): nat { (DayNumber(t) + 4) % 7 }

  predicate Demands<T(==)>(wanted: Option<T>, actual: Option<T>) {
    wanted.Some? ==> actual == wanted
  }

  predicate RuleApplies(rule: Rule, entry: Entry) {
    var day := StartOfDay(entry.workDate);
    var weekdays := if |rule.weekdays| > 0 then rule.weekdays else if rule.kind == WeekendRule then [0, 6] else [];
    var place := entry.assignment.GetOr(Place(None, None, None, None));
    && (rule.effectiveFrom.Some? ==> day >= StartOfDay(rule.effectiveFrom.value))
    && (rule.effectiveTo.Some? ==> day <= EndOfDay(rule.effectiveTo.value))
    && (weekdays == [] || WeekdayOf(day) in weekdays)
    && Demands(rule.node, place.node)
    && Demands(rule.costCenter, place.costCenter)
    && Demands(rule.position, place.position)
    && (rule.location == Some("") || Demands(rule.location, place.location))
  }

  function PremiumRuleMinutes(rule: Rule, entry: Entry): nat {
    if rule.startsAt.Some? && rule.endsAt.Some? && entry.clockIn.Some? && entry.clockOut.Some?
    then Min(entry.payable, OverlapMinutes(entry.clockIn.value, entry.clockOut.value, rule.startsAt.value, rule.endsAt.value))
    else entry.payable
  }

  predicate HolidayApplies(holiday: Holiday, entry: Entry) {
    holiday.paid && DayNumber(holiday.date) == DayNumber(StartOfDay(entry.workDate))
  }

  // ---------------------------------------------------------------- what each item contributes

  function HolidayShare(entry: Entry): Holiday -> nat {
    (h: Holiday) => if HolidayApplies(h, entry) then entry.payable else 0
  }

  function RuleShare(entry: Entry): Rule -> nat {
    (r: Rule) => if RuleApplies(r, entry) then PremiumRuleMinutes(r, entry) else 0
  }

  function Units(minutes: nat, multiplier: nat): nat { minutes * multiplier }

  function HolidayUnits(entry: Entry): Holiday -> nat {
    (h: Holiday) => Units(HolidayShare(entry)(h), h.multiplier)
  }

  function RuleUnits(entry: Entry): Rule -> nat {
    (r: Rule) => Units(RuleShare(entry)(r), r.multiplier)
  }

  function PremiumMinutes(entry: Entry, holidays: seq<Holiday>, rules: seq<Rule>): nat {
    Sum(holidays, HolidayShare(entry)) + Sum(rules, RuleShare(entry))
  }

  function PremiumUnits(entry: Entry, holidays: seq<Holiday>, rules: seq<Rule>): nat {
    Sum(holidays, HolidayUnits(entry)) + Sum(rules, RuleUnits(entry))
  }

  /** One label for each item that contributes, in the order given. */
  function HolidayLabels(entry: Entry, holidays: seq<Holiday>): seq<Label> {
    if holidays == [] then []
    else
      var h := holidays[|holidays| - 1];
      HolidayLabels(entry, holidays[..|holidays| - 1])
      + (if HolidayShare(entry)(h) > 0 then [Label(h.name, h.multiplier)] else [])
  }

  function RuleLabels(entry: Entry, rules: seq<Rule>): seq<Label> {
    if rules == [] then []
    else
      var r := rules[|rules| - 1];
      RuleLabels(entry, rules[..|rules| - 1])
      + (if RuleShare(entry)(r) > 0 then [Label(r.name, r.multiplier)] else [])
  }

  /** The running totals of the code. */
  method AddPremium(payable: nat, minutes: nat, units: nat, labels: seq<Label>, name: string, premiumMinutes: nat, multiplier: nat)
    returns (minutes': nat, units': nat, labels': seq<Label>)
    ensures var m := Min(payable, premiumMinutes);
            && minutes' == minutes + m && units' == units + Units(m, multiplier)
            && labels' == labels + (if m > 0 then [Label(name, multiplier)] else [])
  {
    var rounded := Max(0, Min(payable, premiumMinutes));
    if rounded <= 0 {
      return minutes, units, labels;
    }
    return minutes + rounded, units + Units(rounded, multiplier), labels + [Label(name, multiplier)];
  }

  method CalculatePayrollPremium(entry: Entry, holidays: seq<Holiday>, rules: seq<Rule>)
    returns (minutes: nat, units: nat, labels: seq<Label>)
    ensures minutes == PremiumMinutes(entry, holidays, rules)
    ensures units == PremiumUnits(entry, holidays, rules)
    ensures labels == HolidayLabels(entry, holidays) + RuleLabels(entry, rules)
  {
    minutes, units, labels := 0, 0, [];
    for i := 0 to |holidays|
      invariant minutes == Sum(holidays[..i], HolidayShare(entry))
      invariant units == Sum(holidays[..i], HolidayUnits(entry))
      invariant labels == HolidayLabels(entry, holidays[..i])
    {
      assert holidays[..i + 1][..i] == holidays[..i];
      var h := holidays[i];
      if h.paid && DayNumber(h.date) == DayNumber(StartOfDay(entry.workDate)) {
        minutes, units, labels := AddPremium(entry.payable, minutes, units, labels, h.name, entry.payable, h.multiplier);
      }
    }
    assert holidays[..|holidays|] == holidays;
    for i := 0 to |rules|
      invariant minutes == Sum(holidays, HolidayShare(entry)) + Sum(rules[..i], RuleShare(entry))
      invariant units == Sum(holidays, HolidayUnits(entry)) + Sum(rules[..i], RuleUnits(entry))
      invariant labels == HolidayLabels(entry, holidays) + RuleLabels(entry, rules[..i])
    {
      assert rules[..i + 1][..i] == rules[..i];
      if !RuleApplies(rules[i], entry) {
        continue;
      }
      minutes, units, labels := AddPremium(entry.payable, minutes, units, labels,
        rules[i].name, PremiumRuleMinutes(rules[i], entry), rules[i].multiplier);
    }
    assert rules[..|rules|] == rules;
  }

  // ---------------------------------------------------------------- to whom an item applies

  /** January 1st of 1970 was a Thursday, every day is a weekday later than the one before it, and the
      weekday does not change within a day. */
  lemma WeekdaysFollow(t: int)
    ensures WeekdayOf(0) == 4
    ensures WeekdayOf(t + 86_400_000) == if WeekdayOf(t) == 6 then 0 else WeekdayOf(t) + 1
    ensures WeekdayOf(t) == WeekdayOf(t - t % 86_400_000)
  {
    assert DayNumber(t + 86_400_000) == DayNumber(t) + 1;
  }

  predicate PlaceFits(rule: Rule, assignment: Option<Place>) {
    && (rule.node.Some? ==> assignment.Some? && assignment.value.node == rule.node)
    && (rule.costCenter.Some? ==> assignment.Some? && assignment.value.costCenter == rule.costCenter)
    && (rule.position.Some? ==> assignment.Some? && assignment.value.position == rule.position)
    && (rule.location.Some? && rule.location.value != "" ==> assignment.Some? && assignment.value.location == rule.location)
  }

  /** A rule applies from its first day to its last, on its weekdays, which for a weekend rule are Saturday
      and Sunday unless it names others, and at the places it names. */
  lemma RuleAppliesExactly(rule: Rule, entry: Entry)
    ensures RuleApplies(rule, entry) <==>
              && (rule.effectiveFrom.Some? ==> rule.effectiveFrom.value - rule.effectiveFrom.value % 86_400_000 <= entry.workDate)
              && (rule.effectiveTo.Some? ==> entry.workDate < rule.effectiveTo.value - rule.effectiveTo.value % 86_400_000 + 86_400_000)
              && (rule.weekdays != [] ==> WeekdayOf(entry.workDate) in rule.weekdays)
              && (rule.weekdays == [] && rule.kind == WeekendRule ==> WeekdayOf(entry.workDate) == 0 || WeekdayOf(entry.workDate) == 6)
              && PlaceFits(rule, entry.assignment)
  {
    WeekdaysFollow(entry.workDate);
  }

  /** A holiday applies if and only if it is paid and falls on the entry's day. */
  lemma HolidayAppliesExactly(holiday: Holiday, entry: Entry)
    ensures HolidayApplies(holiday, entry)
       <==> holiday.paid && holiday.date - holiday.date % 86_400_000 == entry.workDate - entry.workDate % 86_400_000
  {}

  /** What an applicable rule pays: the time between its bounds, as far as it is payable, if it has two and
      the record has been clocked in and out, and otherwise all that is payable. */
  lemma RulePays(rule: Rule, entry: Entry)
    requires RuleApplies(rule, entry)
    ensures rule.startsAt.None? || rule.endsAt.None? || entry.clockIn.None? || entry.clockOut.None? ==>
              RuleShare(entry)(rule) == entry.payable
    ensures rule.startsAt.Some? && rule.endsAt.Some? && entry.clockIn.Some? && entry.clockOut.Some? ==>
              var window := OverlapMinutes(entry.clockIn.value, entry.clockOut.value, rule.startsAt.value, rule.endsAt.value);
              RuleShare(entry)(rule) == if window < entry.payable then window else entry.payable
  {}

  // ---------------------------------------------------------------- main results

  lemma {:induction false} SumScales<T>(rows: seq<T>, share: T -> nat, units: T -> nat, x: nat)
    requires forall i | 0 <= i < |rows| :: units(rows[i]) == x * share(rows[i])
    ensures Sum(rows, units) == x * Sum(rows, share)
  {
    if rows != [] {
      var n := |rows| - 1;
      SumScales(rows[..n], share, units, x);
      Distribute(x, Sum(rows[..n], share), share(rows[n]));
    }
  }

  /** Under one multiplier for all items the units are the minutes times that multiplier. */
  lemma OneMultiplier(entry: Entry, holidays: seq<Holiday>, rules: seq<Rule>, x: nat)
    requires forall i | 0 <= i < |holidays| :: holidays[i].multiplier == x
    requires forall i | 0 <= i < |rules| :: rules[i].multiplier == x
    ensures PremiumUnits(entry, holidays, rules) == x * PremiumMinutes(entry, holidays, rules)
  {
    forall i | 0 <= i < |holidays|
      ensures HolidayUnits(entry)(holidays[i]) == x * HolidayShare(entry)(holidays[i])
    {
      assert HolidayShare(entry)(holidays[i]) * x == x * HolidayShare(entry)(holidays[i]);
    }
    forall i | 0 <= i < |rules|
      ensures RuleUnits(entry)(rules[i]) == x * RuleShare(entry)(rules[i])
    {
      assert RuleShare(entry)(rules[i]) * x == x * RuleShare(entry)(rules[i]);
    }
    SumScales(holidays, HolidayShare(entry), HolidayUnits(entry), x);
    SumScales(rules, RuleShare(entry), RuleUnits(entry), x);
    Distribute(x, Sum(holidays, HolidayShare(entry)), Sum(rules, RuleShare(entry)));
  }

  /** The labels follow the order of the rules, one for each that pays something. */
  lemma {:induction false} RuleLabelsInOrder(entry: Entry, a: seq<Rule>, rule: Rule, b: seq<Rule>)
    ensures RuleLabels(entry, a + [rule] + b)
         == RuleLabels(entry, a)
            + (if RuleApplies(rule, entry) && PremiumRuleMinutes(rule, entry) > 0 then [Label(rule.name, rule.multiplier)] else [])
            + RuleLabels(entry, b)
    decreases |b|
  {
    if b == [] {
      assert a + [rule] + b == a + [rule] && (a + [rule])[..|a|] == a;
    } else {
      var n := |b| - 1;
      assert (a + [rule] + b)[..|a| + 1 + n] == a + [rule] + b[..n];
      RuleLabelsInOrder(entry, a, rule, b[..n]);
    }
  }

  /** And of the holidays. */
  lemma {:induction false} HolidayLabelsInOrder(entry: Entry, a: seq<Holiday>, holiday: Holiday, b: seq<Holiday>)
    ensures HolidayLabels(entry, a + [holiday] + b)
         == HolidayLabels(entry, a)
            + (if HolidayApplies(holiday, entry) && entry.payable > 0 then [Label(holiday.name, holiday.multiplier)] else [])
            + HolidayLabels(entry, b)
    decreases |b|
  {
    if b == [] {
      assert a + [holiday] + b == a + [holiday] && (a + [holiday])[..|a|] == a;
    } else {
      var n := |b| - 1;
      assert (a + [holiday] + b)[..|a| + 1 + n] == a + [holiday] + b[..n];
      HolidayLabelsInOrder(entry, a, holiday, b[..n]);
    }
  }

  /** The order in which the database returns holidays and rules does not matter. */
  lemma OrderDoesNotMatter(entry: Entry, holidays: seq<Holiday>, holidays': seq<Holiday>, rules: seq<Rule>, rules': seq<Rule>)
    requires multiset(holidays) == multiset(holidays') && multiset(rules) == multiset(rules')
    ensures PremiumMinutes(entry, holidays, rules) == PremiumMinutes(entry, holidays', rules')
    ensures PremiumUnits(entry, holidays, rules) == PremiumUnits(entry, holidays', rules')
  {
    SumPermutation(holidays, holidays', HolidayShare(entry));
    SumPermutation(holidays, holidays', HolidayUnits(entry));
    SumPermutation(rules, rules', RuleShare(entry));
    SumPermutation(rules, rules', RuleUnits(entry));
  }

  function HolidayCounts(entry: Entry): Holiday -> nat { (h: Holiday) => if HolidayApplies(h, entry) then 1 else 0 }

  function RuleCounts(entry: Entry): Rule -> nat { (r: Rule) => if RuleApplies(r, entry) then 1 else 0 }

  lemma Distribute(cap: nat, a: nat, b: nat)
    ensures cap * (a + b) == cap * a + cap * b
  {}

  lemma {:induction false} SumOfCapped<T>(rows: seq<T>, share: T -> nat, counts: T -> nat, cap: nat)
    requires forall i | 0 <= i < |rows| :: share(rows[i]) <= cap * counts(rows[i])
    ensures Sum(rows, share) <= cap * Sum(rows, counts)
  {
    if rows != [] {
      var n := |rows| - 1;
      SumOfCapped(rows[..n], share, counts, cap);
      Distribute(cap, Sum(rows[..n], counts), counts(rows[n]));
    }
  }

  /** No item pays for more than the entry's payable minutes. */
  lemma PremiumIsBounded(entry: Entry, holidays: seq<Holiday>, rules: seq<Rule>)
    ensures PremiumMinutes(entry, holidays, rules)
         <= entry.payable * (Sum(holidays, HolidayCounts(entry)) + Sum(rules, RuleCounts(entry)))
    ensures forall h | h in holidays :: HolidayShare(entry)(h) <= entry.payable
    ensures forall r | r in rules :: RuleShare(entry)(r) <= entry.payable
  {
    SumOfCapped(holidays, HolidayShare(entry), HolidayCounts(entry), entry.payable);
    SumOfCapped(rules, RuleShare(entry), RuleCounts(entry), entry.payable);
  }

  /** A day rule and a night rule with swapped bounds together pay the worked time of a shift, each minute
      once, if and only if neither window alone holds more than is payable: a deducted break costs nothing
      as long as it is no longer than the time in the other window. */
  lemma DayAndNightRulesCoverShift(entry: Entry, day: Rule, night: Rule, a: int, b: int)
    requires a <= b && entry.clockIn == Some(a * MINUTE) && entry.clockOut == Some(b * MINUTE)
    requires RuleApplies(day, entry) && RuleApplies(night, entry)
    requires day.startsAt.Some? && day.endsAt.Some? && day.startsAt != day.endsAt
    requires night.startsAt == day.endsAt && night.endsAt == day.startsAt
    ensures Sum([day, night], RuleShare(entry)) == b - a <==>
              && OverlapMinutes(a * MINUTE, b * MINUTE, day.startsAt.value, day.endsAt.value) <= entry.payable
              && OverlapMinutes(a * MINUTE, b * MINUTE, day.endsAt.value, day.startsAt.value) <= entry.payable
  {
    ComplementaryWindowsCover(a, b, day.startsAt.value, day.endsAt.value);
    SumPair(day, night, RuleShare(entry));
  }
}
