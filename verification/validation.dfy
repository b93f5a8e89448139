/** The per-row business rules of the uploader (`validateRow`): required
    Name, Amount and Date, a same-month rule on Date and a positivity rule on
    Amount, each reported as a `"Row n: ..."` message. */
module Validation {
  import opened JsValues

  /** What the runtime supplies that the rules depend on: `new Date().getMonth()`
      at validation time, and how `new Date(x)` reads a cell that is not already
      a Date (locale- and time-zone-dependent). */
  datatype Env = Env(currentMonth: int, parse: Cell -> JsDate)

  /** `new Date(c)`: a Date cell is copied, anything else goes to the parser. */
  function ToDate(env: Env, c: Cell): JsDate {
    if c.DateCell? then c.d else env.parse(c)
  }

  /** `getMonth()`: None stands for NaN. */
  function MonthOf(d: JsDate): Option<int> {
    if d.ValidDate? then Some(d.month) else None
  }

  /** The five rules, in the order the messages are pushed. */
  datatype Reason =
    | NameRequired
    | AmountRequired
    | DateRequired
    | DateNotCurrentMonth
    | AmountNotPositive

  function Rank(k: Reason): nat {
    match k
    case NameRequired => 0
    case AmountRequired => 1
    case DateRequired => 2
    case DateNotCurrentMonth => 3
    case AmountNotPositive => 4
  }

  const AllReasons: seq<Reason> :=
    [NameRequired, AmountRequired, DateRequired, DateNotCurrentMonth, AmountNotPositive]

  function Text(k: Reason): string {
    match k
    case NameRequired => "Name is required"
    case AmountRequired => "Amount is required"
    case DateRequired => "Date is required"
    case DateNotCurrentMonth => "Date must be in current month"
    case AmountNotPositive => "Amount must be greater than zero"
  }

  /** The template prefix `"Row ${n}: "`. */
  function RowPrefix(n: nat): string {
    "Row " + NatToString(n) + ": "
  }

  function Message(n: nat, k: Reason): string {
    RowPrefix(n) + Text(k)
  }

  /** The rule table, one rule at a time: when does rule `k` fail for `row`? */
  predicate Fires(env: Env, row: Row, k: Reason) {
    var name := Field(row, "Name");
    var amount := Field(row, "Amount");
    var date := Field(row, "Date");
    match k
    case NameRequired => !Truthy(name)
    case AmountRequired => !Truthy(amount)
    case DateRequired => !Truthy(date)
    case DateNotCurrentMonth => Truthy(date) && MonthOf(ToDate(env, date)) != Some(env.currentMonth)
    case AmountNotPositive => Truthy(amount) && !IsPositiveNumber(amount)
  }

  function Only(env: Env, row: Row, k: Reason): seq<Reason> {
    if Fires(env, row, k) then [k] else []
  }

  function FilterFiring(env: Env, row: Row, ks: seq<Reason>): seq<Reason> {
    if |ks| == 0 then []
    else Only(env, row, ks[0]) + FilterFiring(env, row, ks[1..])
  }

  /** The failing rules of `row`, in rule order: the reference the pushes of
      `ValidateRow` are checked against. */
  function Failing(env: Env, row: Row): seq<Reason> {
    FilterFiring(env, row, AllReasons)
  }

  function Messages(n: nat, ks: seq<Reason>): (ms: seq<string>)
    ensures |ms| == |ks|
    ensures forall i :: 0 <= i < |ks| ==> ms[i] == Message(n, ks[i])
  {
    if |ks| == 0 then [] else [Message(n, ks[0])] + Messages(n, ks[1..])
  }

  /** The checks of `validateRow` as written, in push order, one entry per
      pushed message. */
  function Checks(env: Env, row: Row): seq<Reason> {
    var name := Field(row, "Name");
    var amount := Field(row, "Amount");
    var date := Field(row, "Date");
    (if !Truthy(name) then [NameRequired] else [])
    + (if !Truthy(amount) then [AmountRequired] else [])
    + (if !Truthy(date) then [DateRequired] else [])
    + (if Truthy(date) && MonthOf(ToDate(env, date)) != Some(env.currentMonth)
       then [DateNotCurrentMonth] else [])
    + (if Truthy(amount) && (IsNaN(amount) || LessOrEqualZero(amount))
       then [AmountNotPositive] else [])
  }

  /** `validateRow(row, n)`: every pushed check rendered through the
      `"Row ${n}: ..."` template. */
  function ValidateRow(env: Env, row: Row, n: nat): (msgs: seq<string>)
    ensures forall i :: 0 <= i < |msgs| ==> RowPrefix(n) <= msgs[i]
  {
    Messages(n, Checks(env, row))
  }

  /** The rule table walked in rule order is the rule-by-rule concatenation. */
  lemma FailingByRule(env: Env, row: Row)
    ensures Failing(env, row) ==
      Only(env, row, NameRequired) + Only(env, row, AmountRequired) + Only(env, row, DateRequired)
      + Only(env, row, DateNotCurrentMonth) + Only(env, row, AmountNotPositive)
  {
    var e: seq<Reason> := [AmountNotPositive];
    var d := [DateNotCurrentMonth] + e;
    var c := [DateRequired] + d;
    var b := [AmountRequired] + c;
    assert AllReasons == [NameRequired] + b;
    assert FilterFiring(env, row, e) == Only(env, row, AmountNotPositive) by {
      assert e[1..] == [];
    }
    assert FilterFiring(env, row, d) == Only(env, row, DateNotCurrentMonth) + FilterFiring(env, row, e) by {
      assert d[1..] == e;
    }
    assert FilterFiring(env, row, c) == Only(env, row, DateRequired) + FilterFiring(env, row, d) by {
      assert c[1..] == d;
    }
    assert FilterFiring(env, row, b) == Only(env, row, AmountRequired) + FilterFiring(env, row, c) by {
      assert b[1..] == c;
    }
    assert Failing(env, row) == Only(env, row, NameRequired) + FilterFiring(env, row, b) by {
      assert AllReasons[1..] == b;
    }
  }

  /** The pushes of `validateRow` are exactly the failing rules of the rule
      table, in rule order. */
  lemma ValidateRowFollowsRules(env: Env, row: Row)
    ensures Checks(env, row) == Failing(env, row)
  {
    FailingByRule(env, row);
    NotNaNAndPositive(Field(row, "Amount"));
  }

  lemma {:induction false} FilterFiringMembers(env: Env, row: Row, ks: seq<Reason>, k: Reason)
    ensures k in FilterFiring(env, row, ks) <==> k in ks && Fires(env, row, k)
  {
    if |ks| > 0 {
      FilterFiringMembers(env, row, ks[1..], k);
      assert ks == [ks[0]] + ks[1..];
    }
  }

  /** The five texts are pairwise different. */
  lemma TextInjective(a: Reason, b: Reason)
    ensures Text(a) == Text(b) ==> a == b
  {
    if a != b {
      assert |Text(a)| != |Text(b)| || Text(a)[0] != Text(b)[0];
    }
  }

  /** Messages of one row differ exactly when their rules differ. */
  lemma MessageInjective(n: nat, a: Reason, b: Reason)
    ensures Message(n, a) == Message(n, b) ==> a == b
  {
    if Message(n, a) == Message(n, b) {
      var p := RowPrefix(n);
      assert Text(a) == Message(n, a)[|p|..];
      assert Text(b) == Message(n, b)[|p|..];
      TextInjective(a, b);
    }
  }

  lemma MessagesMembers(n: nat, rs: seq<Reason>, k: Reason)
    ensures Message(n, k) in Messages(n, rs) <==> k in rs
  {
    var ms := Messages(n, rs);
    if Message(n, k) in ms {
      var i :| 0 <= i < |ms| && ms[i] == Message(n, k);
      MessageInjective(n, rs[i], k);
    }
    if k in rs {
      var i :| 0 <= i < |rs| && rs[i] == k;
      assert ms[i] == Message(n, k);
    }
  }

  /** Each rule's message appears exactly when that rule fails. In particular
      the three "is required" messages appear exactly when the field is falsy. */
  lemma ValidateRowMentions(env: Env, row: Row, n: nat, k: Reason)
    ensures Message(n, k) in ValidateRow(env, row, n) <==> Fires(env, row, k)
  {
    ValidateRowFollowsRules(env, row);
    MessagesMembers(n, Checks(env, row), k);
    FilterFiringMembers(env, row, AllReasons, k);
  }

  /** Every message of row `n` is `"Row n: "` followed by the text of a
      failing rule. */
  lemma ValidateRowMessagesAreTagged(env: Env, row: Row, n: nat)
    ensures forall e :: e in ValidateRow(env, row, n) ==>
              exists k :: Fires(env, row, k) && e == RowPrefix(n) + Text(k)
  {
    ValidateRowFollowsRules(env, row);
    var rs := Checks(env, row);
    var errs := ValidateRow(env, row, n);
    forall e | e in errs
      ensures exists k :: Fires(env, row, k) && e == RowPrefix(n) + Text(k)
    {
      var i :| 0 <= i < |errs| && errs[i] == e;
      FilterFiringMembers(env, row, AllReasons, rs[i]);
      assert Fires(env, row, rs[i]) && e == RowPrefix(n) + Text(rs[i]);
    }
  }

  /** Strictly increasing in rule order: rule order kept, no rule twice. */
  predicate InRuleOrder(rs: seq<Reason>) {
    forall i, j :: 0 <= i < j < |rs| ==> Rank(rs[i]) < Rank(rs[j])
  }

  /** A rule ranked below every rule of an ordered list can go in front. */
  lemma ConsInRuleOrder(k: Reason, tail: seq<Reason>)
    requires InRuleOrder(tail)
    requires forall t :: t in tail ==> Rank(k) < Rank(t)
    ensures InRuleOrder([k] + tail)
  {
    var rs := [k] + tail;
    forall i, j | 0 <= i < j < |rs| ensures Rank(rs[i]) < Rank(rs[j]) {
      assert rs[j] == tail[j - 1];
      if i == 0 {
        assert tail[j - 1] in tail;
      } else {
        assert rs[i] == tail[i - 1];
      }
    }
  }

  lemma {:induction false} FilterFiringOrdered(env: Env, row: Row, ks: seq<Reason>)
    requires InRuleOrder(ks)
    ensures InRuleOrder(FilterFiring(env, row, ks))
  {
    if |ks| > 0 {
      var rest := ks[1..];
      assert InRuleOrder(rest) by {
        forall i, j | 0 <= i < j < |rest| ensures Rank(rest[i]) < Rank(rest[j]) {
          assert rest[i] == ks[i + 1] && rest[j] == ks[j + 1];
        }
      }
      FilterFiringOrdered(env, row, rest);
      var tail := FilterFiring(env, row, rest);
      if Fires(env, row, ks[0]) {
        forall k | k in tail ensures Rank(ks[0]) < Rank(k) {
          FilterFiringMembers(env, row, rest, k);
          var j :| 0 <= j < |rest| && rest[j] == k;
          assert ks[j + 1] == k;
        }
        ConsInRuleOrder(ks[0], tail);
        assert FilterFiring(env, row, ks) == [ks[0]] + tail;
      } else {
        assert FilterFiring(env, row, ks) == tail;
      }
    }
  }

  /** The pushes come in rule order (Name, Amount, Date, month, positivity)
      and no rule pushes twice. */
  lemma ValidateRowOrdered(env: Env, row: Row)
    ensures InRuleOrder(Checks(env, row))
  {
    ValidateRowFollowsRules(env, row);
    FilterFiringOrdered(env, row, AllReasons);
  }

  /** A row collects at most three messages, because the "required" check and
      the follow-up check of one field never both fail. */
  lemma AtMostThreeErrors(env: Env, row: Row, n: nat)
    ensures |ValidateRow(env, row, n)| <= 3
    ensures !(Fires(env, row, AmountRequired) && Fires(env, row, AmountNotPositive))
    ensures !(Fires(env, row, DateRequired) && Fires(env, row, DateNotCurrentMonth))
  {
    ValidateRowFollowsRules(env, row);
    FailingByRule(env, row);
  }

  /** An Amount of 0 is falsy: it is reported as missing, not as non-positive. */
  lemma ZeroAmountIsMissing(env: Env, row: Row, n: nat)
    requires Field(row, "Amount") == Num(0)
    ensures Message(n, AmountRequired) in ValidateRow(env, row, n)
    ensures Message(n, AmountNotPositive) !in ValidateRow(env, row, n)
  {
    ValidateRowMentions(env, row, n, AmountRequired);
    ValidateRowMentions(env, row, n, AmountNotPositive);
  }

  /** A negative amount, or truthy text that is not a number, yields only the
      positivity message among the Amount rules. */
  lemma BadAmountIsNotPositive(env: Env, row: Row, n: nat)
    requires || (Field(row, "Amount").Num? && Field(row, "Amount").n < 0)
             || (Field(row, "Amount").Str? && Field(row, "Amount").s != "" && IsNaN(Field(row, "Amount")))
    ensures Message(n, AmountRequired) !in ValidateRow(env, row, n)
    ensures Message(n, AmountNotPositive) in ValidateRow(env, row, n)
  {
    ValidateRowMentions(env, row, n, AmountRequired);
    ValidateRowMentions(env, row, n, AmountNotPositive);
  }

  /** A present amount passes the positivity rule exactly when it coerces to a
      number above zero; `true` coerces to 1 and passes. */
  lemma PositiveAmountPasses(env: Env, row: Row, n: nat)
    requires Truthy(Field(row, "Amount"))
    ensures Message(n, AmountNotPositive) in ValidateRow(env, row, n)
            <==> !IsPositiveNumber(Field(row, "Amount"))
  {
    ValidateRowMentions(env, row, n, AmountNotPositive);
  }

  /** An amount typed with a no-break space in front still reads as its
      number, so a positive one gets no positivity message. */
  lemma NoBreakSpaceAmountPasses(env: Env, row: Row, n: nat, v: nat)
    requires v > 0
    requires Field(row, "Amount") == Str([0xA0 as char] + NatToString(v))
    ensures Message(n, AmountNotPositive) !in ValidateRow(env, row, n)
  {
    ParseNumberOfNatToString(v);
    PaddingIsIgnored(NatToString(v), 0xA0 as char);
    PositiveAmountPasses(env, row, n);
  }

  /** A present Date value that `new Date(...)` turns into an Invalid Date
      (an unparsable text or number, or a Date cell already invalid) is truthy
      and its month is NaN, so it is reported as not in the current month. */
  lemma InvalidDateIsNotCurrentMonth(env: Env, row: Row, n: nat)
    requires Truthy(Field(row, "Date")) && ToDate(env, Field(row, "Date")) == InvalidDate
    ensures Message(n, DateNotCurrentMonth) in ValidateRow(env, row, n)
    ensures Message(n, DateRequired) !in ValidateRow(env, row, n)
  {
    ValidateRowMentions(env, row, n, DateNotCurrentMonth);
    ValidateRowMentions(env, row, n, DateRequired);
  }

  /** Only the month of the date matters: moving a Date cell to another year
      (or another day of the same month) changes no message. */
  lemma MonthRuleIgnoresYear(env: Env, row: Row, n: nat, t1: int, y1: int, t2: int, y2: int, m: int)
    requires Field(row, "Date") == DateCell(ValidDate(t1, y1, m))
    ensures ValidateRow(env, row, n) == ValidateRow(env, row["Date" := DateCell(ValidDate(t2, y2, m))], n)
  {
    var row2 := row["Date" := DateCell(ValidDate(t2, y2, m))];
    assert Field(row2, "Name") == Field(row, "Name");
    assert Field(row2, "Amount") == Field(row, "Amount");
    assert Checks(env, row2) == Checks(env, row);
  }

  /** The row number only enters the `"Row n: "` prefix: the same texts follow
      it whatever number the row is given. */
  lemma RowNumberOnlyInPrefix(env: Env, row: Row, n: nat, m: nat)
    ensures |ValidateRow(env, row, n)| == |ValidateRow(env, row, m)|
    ensures forall i :: 0 <= i < |ValidateRow(env, row, n)| ==>
              ValidateRow(env, row, n)[i][|RowPrefix(n)|..] == ValidateRow(env, row, m)[i][|RowPrefix(m)|..]
  {
    var rs := Checks(env, row);
    forall i | 0 <= i < |rs|
      ensures ValidateRow(env, row, n)[i][|RowPrefix(n)|..] == ValidateRow(env, row, m)[i][|RowPrefix(m)|..]
    {
      assert ValidateRow(env, row, n)[i][|RowPrefix(n)|..] == Text(rs[i]);
      assert ValidateRow(env, row, m)[i][|RowPrefix(m)|..] == Text(rs[i]);
    }
  }
}
