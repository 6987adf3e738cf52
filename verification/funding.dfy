// clif/funding.py: what a proposed plan may spend, and what executing it or topping up does to the balances.
// Native tokens are reals here, wei are integers.
module Fundings {
  import D = DotEnv
  import opened Hex

  const WEI: int := 1_000_000_000_000_000_000
  const TOLERANCE: real := 0.000000001

  datatype Band = Band(lower: int, upper: int)

  datatype Account = Account(name: string, address: string, band: Band)

  // round(x): the nearest integer, halves to even.
  function Round(x: real): int {
    var f := x.Floor;
    var d := x - f as real;
    if d < 0.5 then f else if d > 0.5 then f + 1 else if f % 2 == 0 then f else f + 1
  }

  // round(x, 6).
  function Round6(x: real): real {
    Round(x * 1000000.0) as real / 1000000.0
  }

  // No integer is nearer, and of two equally near the even one is taken.
  lemma RoundExactly(x: real, n: int)
    ensures Round(x) == n <==>
              n as real - 0.5 <= x <= n as real + 0.5 && (x in {n as real - 0.5, n as real + 0.5} ==> n % 2 == 0)
  {
    var f := x.Floor;
    assert f as real <= x < f as real + 1.0;
  }

  // Six decimals, the nearest such number, and of two equally near the one whose last decimal is even.
  lemma SixDecimals(x: real, n: int)
    ensures Round6(x) * 1000000.0 == n as real <==>
              && n as real - 0.5 <= x * 1000000.0 <= n as real + 0.5
              && (x * 1000000.0 in {n as real - 0.5, n as real + 0.5} ==> n % 2 == 0)
    ensures OnGrid(Round6(x))
  {
    RoundExactly(x * 1000000.0, n);
    assert Round6(x) * 1000000.0 == Round(x * 1000000.0) as real;
    GridNumber(Round6(x), Round(x * 1000000.0));
  }

  lemma RoundInteger(n: int)
    ensures Round(n as real) == n
  {}

  // --- The registry ------------------------------------------------------------------------------------------

  // The account of a lower-cased name; of two with one name the later counts.
  function Registered(accounts: seq<Account>, name: string): Option<Account> {
    if accounts == [] then None
    else
      var last := accounts[|accounts| - 1];
      if Lower(last.name) == name then Some(last) else Registered(accounts[..|accounts| - 1], name)
  }

  // The last account whose name has these letters in some case, if there is one.
  lemma {:induction false} RegisteredExactly(accounts: seq<Account>, name: string, a: Account)
    ensures Registered(accounts, name) == Some(a) <==>
              exists i :: 0 <= i < |accounts| && accounts[i] == a && Lower(a.name) == name &&
                          forall j :: i < j < |accounts| ==> Lower(accounts[j].name) != name
    ensures Registered(accounts, name) == None <==> forall i :: 0 <= i < |accounts| ==> Lower(accounts[i].name) != name
  {
    hide Lower;
    if accounts != [] {
      var n := |accounts| - 1;
      var init := accounts[..n];
      RegisteredExactly(init, name, a);
      assert forall i :: 0 <= i < n ==> accounts[i] == init[i];
    }
  }

  // --- Validating a plan -------------------------------------------------------------------------------------

  // Exactly one of a target balance and an amount is read.
  datatype Item = Target(account: string, target: real) | Amount(account: string, amount: real)

  datatype Reason = Unknown | NoBalance | TargetTooHigh | NotPositive | OverCap | OverBand | OverFunder

  datatype PlanLine = PlanLine(account: string, address: string, amount: real, rejected: Option<Reason>)

  function Total(lines: seq<PlanLine>): real {
    if lines == [] then 0.0
    else Total(lines[..|lines| - 1]) + if lines[|lines| - 1].rejected.None? then lines[|lines| - 1].amount else 0.0
  }

  method ValidatePlan(accounts: seq<Account>, items: seq<Item>, balances: map<string, real>, funder: real, cap: real)
    returns (out: seq<PlanLine>)
    ensures Validated(accounts, items, balances, funder, cap, out)
  {
    hide Judges, Validated;
    out := [];
    var running := 0.0;
    NothingValidated(accounts, balances, funder, cap);
    assert items[..0] == [];
    for k := 0 to |items|
      invariant running == Total(out) && Validated(accounts, items[..k], balances, funder, cap, out)
    {
      var line := JudgeLine(accounts, items[k], balances, funder, cap, running);
      ValidatedSnoc(accounts, items[..k], items[k], balances, funder, cap, out, line);
      assert items[..k + 1] == items[..k] + [items[k]];
      out := out + [line];
      if line.rejected.None? { running := running + line.amount; }
    }
    assert items[..|items|] == items;
  }

  // One item against the registry and the balances.
  method JudgeLine(accounts: seq<Account>, it: Item, balances: map<string, real>, funder: real, cap: real,
                   running: real)
    returns (line: PlanLine)
    ensures Judges(accounts, it, balances, funder, cap, running, line)
  {
    hide Bounds;
    var name := D.Strip(it.account);
    var a := Registered(accounts, Lower(name));
    if a.None? { return PlanLine(name, "", 0.0, Some(Unknown)); }
    if Lower(a.value.address) !in balances { return PlanLine(a.value.name, a.value.address, 0.0, Some(NoBalance)); }
    line := Bounded(a.value, it, balances[Lower(a.value.address)], funder, cap, running);
  }

  // The bounds on one line for a known account, in the order in which they are checked.
  method Bounded(a: Account, it: Item, bal: real, funder: real, cap: real, running: real) returns (line: PlanLine)
    ensures line.account == a.name && line.address == a.address && Bounds(a, it, bal, funder, cap, running, line)
  {
    if it.Target? && it.target > a.band.upper as real + TOLERANCE {
      return PlanLine(a.name, a.address, 0.0, Some(TargetTooHigh));
    }
    var amount := if it.Target? then Round6(it.target - bal) else Round6(it.amount);
    var rejected :=
      if amount <= 0.0 then Some(NotPositive)
      else if amount > cap + TOLERANCE then Some(OverCap)
      else if bal + amount > a.band.upper as real + TOLERANCE then Some(OverBand)
      else if running + amount > funder + TOLERANCE then Some(OverFunder)
      else None;
    line := PlanLine(a.name, a.address, amount, rejected);
  }

  function Asked(it: Item, bal: real): real {
    if it.Target? then Round6(it.target - bal) else Round6(it.amount)
  }

  // A line is accepted exactly when it respects every bound; otherwise the first that it breaks is the reason.  Bounds
  // are respected up to a billionth.
  ghost predicate Bounds(a: Account, it: Item, bal: real, funder: real, cap: real, running: real, line: PlanLine) {
    var amount := Asked(it, bal);
    var upper := a.band.upper as real + 0.000000001;
    && (line.rejected == Some(TargetTooHigh) <==> it.Target? && it.target > upper)
    && line.amount == (if line.rejected == Some(TargetTooHigh) then 0.0 else amount)
    && (line.rejected != Some(TargetTooHigh) ==>
          && (line.rejected == Some(NotPositive) <==> amount <= 0.0)
          && (line.rejected == Some(OverCap) <==> 0.0 < amount && amount - cap > 0.000000001)
          && (line.rejected == Some(OverBand) <==> 0.0 < amount <= cap + 0.000000001 && bal + amount > upper)
          && (line.rejected == Some(OverFunder) <==>
              && 0.0 < amount <= cap + 0.000000001 && bal + amount <= upper
              && running + amount - funder > 0.000000001))
    && line.rejected !in {Some(Unknown), Some(NoBalance)}
  }

  lemma EveryReason(r: Reason)
    ensures r in {Unknown, NoBalance, TargetTooHigh, NotPositive, OverCap, OverBand, OverFunder}
  {
    match r {
      case Unknown => case NoBalance => case TargetTooHigh => case NotPositive => case OverCap => case OverBand =>
      case OverFunder =>
    }
  }

  // So a line that is accepted asks for what it takes to the target, or for the amount, to six decimals, and breaks
  // no bound.
  lemma AcceptedExactly(a: Account, it: Item, bal: real, funder: real, cap: real, running: real, line: PlanLine)
    requires Bounds(a, it, bal, funder, cap, running, line)
    ensures line.rejected.None? <==>
              && (it.Target? ==> it.target <= a.band.upper as real + TOLERANCE)
              && 0.0 < Asked(it, bal) <= cap + TOLERANCE && bal + Asked(it, bal) <= a.band.upper as real + TOLERANCE
              && running + Asked(it, bal) <= funder + TOLERANCE
    ensures line.rejected.None? ==>
              line.amount == match it case Target(_, t) => Round6(t - bal) case Amount(_, x) => Round6(x)
  {
    hide Round6;
    if line.rejected.Some? { EveryReason(line.rejected.value); }
  }

  // Every line is judged on its own, against the total accepted before it.
  ghost predicate Validated(accounts: seq<Account>, items: seq<Item>, balances: map<string, real>, funder: real,
                            cap: real,
                            out: seq<PlanLine>) {
    |out| == |items| &&
    forall i :: 0 <= i < |items| ==> Judges(accounts, items[i], balances, funder, cap, Total(out[..i]), out[i])
  }

  lemma NothingValidated(accounts: seq<Account>, balances: map<string, real>, funder: real, cap: real)
    ensures Validated(accounts, [], balances, funder, cap, [])
  {}

  lemma ValidatedSnoc(accounts: seq<Account>, items: seq<Item>, it: Item, balances: map<string, real>, funder: real,
                      cap: real,
                      out: seq<PlanLine>, line: PlanLine)
    requires Validated(accounts, items, balances, funder, cap, out)
    requires Judges(accounts, it, balances, funder, cap, Total(out), line)
    ensures Validated(accounts, items + [it], balances, funder, cap, out + [line])
    ensures Total(out + [line]) == Total(out) + if line.rejected.None? then line.amount else 0.0
  {
    hide Judges;
    var more := out + [line];
    assert more[..|out|] == out;
    forall i | 0 <= i < |more|
      ensures Judges(accounts, (items + [it])[i], balances, funder, cap, Total(more[..i]), more[i])
    {
      if i < |out| { assert more[..i] == out[..i]; }
    }
  }

  lemma ValidatedInit(accounts: seq<Account>, items: seq<Item>, balances: map<string, real>, funder: real, cap: real,
                      out: seq<PlanLine>)
    requires Validated(accounts, items, balances, funder, cap, out) && out != []
    ensures Validated(accounts, items[..|items| - 1], balances, funder, cap, out[..|out| - 1])
    ensures Judges(accounts, items[|items| - 1], balances, funder, cap, Total(out[..|out| - 1]), out[|out| - 1])
  {
    hide Judges;
    var init := out[..|out| - 1];
    forall i | 0 <= i < |init|
      ensures Judges(accounts, items[i], balances, funder, cap, Total(init[..i]), init[i])
    {
      assert init[..i] == out[..i];
    }
  }

  ghost predicate Judges(accounts: seq<Account>, it: Item, balances: map<string, real>, funder: real, cap: real,
                         running: real,
                         line: PlanLine) {
    match Registered(accounts, Lower(D.Strip(it.account)))
    case None => line == PlanLine(D.Strip(it.account), "", 0.0, Some(Unknown))
    case Some(a) =>
      && line.account == a.name && line.address == a.address
      && if Lower(a.address) !in balances then line == PlanLine(a.name, a.address, 0.0, Some(NoBalance))
         else Bounds(a, it, balances[Lower(a.address)], funder, cap, running, line)
  }

  lemma JudgedIsKnown(accounts: seq<Account>, it: Item, balances: map<string, real>, funder: real, cap: real,
                      running: real, line: PlanLine)
    requires Judges(accounts, it, balances, funder, cap, running, line)
    ensures line.rejected.None? ==> Registered(accounts, Lower(line.account)).Some?
  {
    hide Bounds;
  }

  // A number of whole millionths.
  function Millionths(x: real): int {
    (x * 1000000.0).Floor
  }

  predicate OnGrid(x: real) {
    x * 1000000.0 == Millionths(x) as real
  }

  lemma GridNumber(x: real, n: int)
    requires x * 1000000.0 == n as real
    ensures OnGrid(x)
  {}

  lemma GridSum(x: real, y: real)
    requires OnGrid(x) && OnGrid(y)
    ensures OnGrid(x + y)
  {
    GridNumber(x + y, Millionths(x) + Millionths(y));
  }

  // The next whole millionth above x.
  function NextMillionth(x: real): real {
    (Millionths(x) + 1) as real / 1000000.0
  }

  lemma AboveIsNext(x: real, y: real)
    requires OnGrid(x) && x > y
    ensures x >= NextMillionth(y)
  {
    assert x * 1000000.0 > y * 1000000.0;
    assert Millionths(x) >= Millionths(y) + 1;
  }

  // Whole millionths that exceed a bound by at most the tolerance exceed it only if the next one does.
  lemma GridBound(x: real, y: real)
    requires OnGrid(x) && x <= y + TOLERANCE && NextMillionth(y) > y + TOLERANCE
    ensures x <= y
  {
    hide OnGrid, NextMillionth;
    if x > y { AboveIsNext(x, y); }
  }

  // One more line: the running total stays on the grid and within the funder's balance.
  ghost predicate Affordable(total: real, funder: real) {
    && OnGrid(total) && 0.0 <= total <= funder + TOLERANCE
    && (NextMillionth(funder) > funder + TOLERANCE ==> total <= funder)
  }

  lemma OneMoreLine(total: real, amount: real, funder: real, cap: real)
    requires Affordable(total, funder) && OnGrid(amount)
    requires 0.0 < amount <= cap + TOLERANCE && total + amount <= funder + TOLERANCE
    ensures Affordable(total + amount, funder) && (NextMillionth(cap) > cap + TOLERANCE ==> amount <= cap)
  {
    hide OnGrid, NextMillionth;
    GridSum(total, amount);
    if NextMillionth(funder) > funder + TOLERANCE { GridBound(total + amount, funder); }
    if NextMillionth(cap) > cap + TOLERANCE { GridBound(amount, cap); }
  }

  lemma NothingSpent(funder: real)
    requires funder >= 0.0
    ensures Affordable(0.0, funder)
  {
    GridNumber(0.0, 0);
  }

  // An accepted amount is positive and under the cap.
  ghost predicate Capped(line: PlanLine, cap: real) {
    line.rejected.None? ==>
      && OnGrid(line.amount) && 0.0 < line.amount <= cap + TOLERANCE
      && (NextMillionth(cap) > cap + TOLERANCE ==> line.amount <= cap)
  }

  // The accepted lines spend no more than the funder has, and each stays under the cap, but for the tolerance; and
  // that only matters where a whole millionth lies within it.
  lemma {:induction false} PlanIsAffordable(accounts: seq<Account>, items: seq<Item>, balances: map<string, real>,
                                            funder: real,
                                            cap: real, out: seq<PlanLine>)
    requires Validated(accounts, items, balances, funder, cap, out) && funder >= 0.0
    ensures Affordable(Total(out), funder) && forall i :: 0 <= i < |out| ==> Capped(out[i], cap)
  {
    hide Judges, Validated, Affordable, Capped, OnGrid;
    if out == [] {
      NothingSpent(funder);
    } else {
      SameLength(accounts, items, balances, funder, cap, out);
      var init := out[..|out| - 1];
      ValidatedInit(accounts, items, balances, funder, cap, out);
      PlanIsAffordable(accounts, items[..|items| - 1], balances, funder, cap, init);
      LineIsAffordable(accounts, items[|items| - 1], balances, funder, cap, Total(init), out[|out| - 1]);
      assert forall i :: 0 <= i < |init| ==> out[i] == init[i];
    }
  }

  lemma SameLength(accounts: seq<Account>, items: seq<Item>, balances: map<string, real>, funder: real, cap: real,
                   out: seq<PlanLine>)
    requires Validated(accounts, items, balances, funder, cap, out)
    ensures |out| == |items|
  {}

  lemma LineIsAffordable(accounts: seq<Account>, it: Item, balances: map<string, real>, funder: real, cap: real,
                         total: real,
                         line: PlanLine)
    requires Judges(accounts, it, balances, funder, cap, total, line) && Affordable(total, funder)
    ensures Capped(line, cap) && Affordable(total + if line.rejected.None? then line.amount else 0.0, funder)
  {
    if line.rejected.None? {
      AcceptedIsOnGrid(accounts, it, balances, funder, cap, total, line);
      hide Judges;
      OneMoreLine(total, line.amount, funder, cap);
    }
  }

  lemma AcceptedIsOnGrid(accounts: seq<Account>, it: Item, balances: map<string, real>, funder: real, cap: real,
                         running: real,
                         line: PlanLine)
    requires Judges(accounts, it, balances, funder, cap, running, line) && line.rejected.None?
    ensures OnGrid(line.amount) && 0.0 < line.amount <= cap + TOLERANCE && running + line.amount <= funder + TOLERANCE
  {
    var a := Registered(accounts, Lower(D.Strip(it.account))).value;
    var bal := balances[Lower(a.address)];
    var x := if it.Target? then it.target - bal else it.amount;
    GridNumber(line.amount, Round(x * 1000000.0));
  }

  // No plan is accepted for more than the funder has.
  ghost predicate NeverOverspends(funder: real) {
    forall accounts, items, balances, cap, out: seq<PlanLine> ::
      Validated(accounts, items, balances, funder, cap, out) ==> Total(out) <= funder
  }

  // No accepted line exceeds the cap.
  ghost predicate CapHolds(cap: real) {
    forall accounts, items, balances, funder, out: seq<PlanLine> ::
      Validated(accounts, items, balances, funder, cap, out) ==>
        forall i :: 0 <= i < |out| && out[i].rejected.None? ==> out[i].amount <= cap
  }

  // The next whole millionth above a limit, asked of an empty account.
  lemma JustAbove(limit: real, funder: real, cap: real)
    returns (accounts: seq<Account>, items: seq<Item>, balances: map<string, real>, out: seq<PlanLine>)
    requires limit >= 0.0 && NextMillionth(limit) <= funder + TOLERANCE && NextMillionth(limit) <= cap + TOLERANCE
    ensures Validated(accounts, items, balances, funder, cap, out)
    ensures |out| == 1 && out[0].rejected.None? && out[0].amount == NextMillionth(limit) > limit
  {
    var amount := NextMillionth(limit);
    var a := Account("a", "b", Band(0, amount.Floor + 1));
    var it := Amount("a", amount);
    accounts, items, balances := [a], [] + [it], map["b" := 0.0];
    var line := PlanLine("a", "b", amount, None);
    assert amount * 1000000.0 == (Millionths(limit) + 1) as real;
    RoundInteger(Millionths(limit) + 1);
    assert D.Strip("a") == "a" && Lower("a") == "a" && Lower("b") == "b";
    NothingValidated(accounts, balances, funder, cap);
    assert Judges(accounts, it, balances, funder, cap, 0.0, line);
    ValidatedSnoc(accounts, [], it, balances, funder, cap, [], line);
    out := [] + [line];
  }

  // The funder's balance bounds every plan exactly if no whole millionth lies within the tolerance above it.
  lemma OverspendsExactly(funder: real)
    requires funder >= 0.0
    ensures NeverOverspends(funder) <==> NextMillionth(funder) > funder + TOLERANCE
  {
    hide Validated, NextMillionth, OnGrid;
    if NextMillionth(funder) > funder + TOLERANCE {
      forall accounts, items, balances, cap, out: seq<PlanLine> | Validated(accounts, items, balances, funder, cap, out)
        ensures Total(out) <= funder
      {
        PlanIsAffordable(accounts, items, balances, funder, cap, out);
      }
    } else {
      var accounts, items, balances, out := JustAbove(funder, funder, NextMillionth(funder));
      TotalOfOne(out);
    }
  }

  lemma TotalOfOne(out: seq<PlanLine>)
    requires |out| == 1 && out[0].rejected.None?
    ensures Total(out) == out[0].amount
  {
    assert out[..0] == [];
  }

  lemma CapHoldsExactly(cap: real)
    requires cap >= 0.0
    ensures CapHolds(cap) <==> NextMillionth(cap) > cap + TOLERANCE
  {
    hide Validated, NextMillionth, OnGrid;
    if NextMillionth(cap) > cap + TOLERANCE {
      forall accounts, items, balances, funder, out: seq<PlanLine> |
        Validated(accounts, items, balances, funder, cap, out)
        ensures forall i :: 0 <= i < |out| && out[i].rejected.None? ==> out[i].amount <= cap
      {
        CapOfPlan(accounts, items, balances, funder, cap, out);
      }
    } else {
      var accounts, items, balances, out := JustAbove(cap, NextMillionth(cap), cap);
      assert !(out[0].amount <= cap);
    }
  }

  lemma CapOfPlan(accounts: seq<Account>, items: seq<Item>, balances: map<string, real>, funder: real, cap: real,
                  out: seq<PlanLine>)
    requires Validated(accounts, items, balances, funder, cap, out) && NextMillionth(cap) > cap + TOLERANCE
    ensures forall i :: 0 <= i < |out| && out[i].rejected.None? ==> out[i].amount <= cap
  {
    hide Judges, NextMillionth, OnGrid;
    forall i | 0 <= i < |out| && out[i].rejected.None?
      ensures out[i].amount <= cap
    {
      AcceptedIsOnGrid(accounts, items[i], balances, funder, cap, Total(out[..i]), out[i]);
      GridBound(out[i].amount, cap);
    }
  }

  // A funder just under ten tokens is taken to afford ten.
  lemma TenFromLessThanTen()
    ensures !NeverOverspends(9.9999999995)
  {
    assert Millionths(9.9999999995) == 9999999;
    OverspendsExactly(9.9999999995);
  }

  // --- Executing ---------------------------------------------------------------------------------------------

  function MinReal(x: real, y: real): real {
    if x < y then x else y
  }

  function MaxReal(x: real, y: real): real {
    if x > y then x else y
  }

  function Max(x: int, y: int): int {
    if x > y then x else y
  }

  // A balance in native tokens.
  function Native(wei: int): real {
    wei as real / WEI as real
  }

  lemma RoundMonotone(x: real, y: real)
    requires x <= y
    ensures Round(x) <= Round(y)
  {
    var f, g := x.Floor, y.Floor;
    assert f <= g;
  }

  lemma RoomInWei(upper: int, wei: int)
    ensures (upper as real - Native(wei)) * WEI as real == (upper * WEI - wei) as real
    ensures Native(wei) < upper as real <==> wei < upper * WEI
  {}

  // What a line sends to an account: no more than its amount, no more than the band still has room for.
  function LineValue(amount: real, upper: int, wei: int): int {
    Round(MinReal(amount, MaxReal(0.0, upper as real - Native(wei))) * WEI as real)
  }

  lemma {:induction false} LineValueFits(amount: real, upper: int, wei: int)
    ensures LineValue(amount, upper, wei) <= Max(0, upper * WEI - wei)
    ensures LineValue(amount, upper, wei) <= Round(amount * WEI as real)
    ensures amount <= upper as real - Native(wei) ==> LineValue(amount, upper, wei) == Round(amount * WEI as real)
  {
    var room := MaxReal(0.0, upper as real - Native(wei));
    var x := MinReal(amount, room);
    RoomInWei(upper, wei);
    assert room * WEI as real == Max(0, upper * WEI - wei) as real;
    RoundInteger(Max(0, upper * WEI - wei));
    RoundMonotone(x * WEI as real, room * WEI as real);
    RoundMonotone(x * WEI as real, amount * WEI as real);
  }

  // Where the amount is at least what the band has room for, exactly the room is sent, to the wei.
  lemma RoomIsFilled(amount: real, upper: int, wei: int)
    requires amount * WEI as real >= (upper * 1_000_000_000_000_000_000 - wei) as real && amount >= 0.0
    ensures LineValue(amount, upper, wei) == Max(0, upper * 1_000_000_000_000_000_000 - wei)
  {
    var room := MaxReal(0.0, upper as real - Native(wei));
    RoomInWei(upper, wei);
    assert room * WEI as real == Max(0, upper * WEI - wei) as real;
    assert amount >= room;
    RoundInteger(Max(0, upper * WEI - wei));
  }

  lemma LineValueFalls(amount: real, upper: int, wei: int, later: int)
    requires wei <= later
    ensures LineValue(amount, upper, later) <= LineValue(amount, upper, wei)
  {
    RoomInWei(upper, wei);
    RoomInWei(upper, later);
    assert upper as real - Native(later) <= upper as real - Native(wei);
    var x := MinReal(amount, MaxReal(0.0, upper as real - Native(later)));
    var y := MinReal(amount, MaxReal(0.0, upper as real - Native(wei)));
    assert x <= y;
    assert x * WEI as real <= y * WEI as real;
    RoundMonotone(x * WEI as real, y * WEI as real);
  }

  // --- Transfers under way -----------------------------------------------------------------------------------

  datatype Transfer = Transfer(address: string, value: nat)

  // Balances in wei by address, and what was broadcast and has neither landed nor failed.
  datatype Book = Book(balances: map<string, int>, pending: seq<Transfer>)

  function Balance(b: Book, address: string): int {
    if address in b.balances then b.balances[address] else 0
  }

  function Credit(b: Book, t: Transfer): Book {
    b.(balances := b.balances[t.address := Balance(b, t.address) + t.value])
  }

  function SumTo(ts: seq<Transfer>, address: string): nat {
    if ts == [] then 0
    else SumTo(ts[..|ts| - 1], address) + if ts[|ts| - 1].address == address then ts[|ts| - 1].value else 0
  }

  // What an address has once everything under way has landed.
  function Due(b: Book, address: string): int {
    Balance(b, address) + SumTo(b.pending, address)
  }

  // The i-th transfer under way lands.
  function Land(b: Book, i: nat): Book {
    if i >= |b.pending| then b
    else Credit(b, b.pending[i]).(pending := b.pending[..i] + b.pending[i + 1..])
  }

  // Landing credits the address of that transfer with its value and takes that transfer, and no other, off those under
  // way.
  lemma LandExactly(b: Book, i: nat, address: string)
    requires i < |b.pending|
    ensures var after := Land(b, i);
            && |after.pending| == |b.pending| - 1
            && (forall k: nat :: k < i ==> after.pending[k] == b.pending[k])
            && (forall k: nat :: i < k < |b.pending| ==> after.pending[k - 1] == b.pending[k])
            && (address == b.pending[i].address ==> Balance(after, address) == Balance(b, address) + b.pending[i].value)
            && (address != b.pending[i].address ==> Balance(after, address) == Balance(b, address))
  {}

  // An address not listed has nothing.
  lemma BalanceExactly(b: Book, address: string, wei: int)
    requires wei != 0
    ensures Balance(b, address) == wei <==> (address, wei) in b.balances.Items
  {}

  function Arrive(b: Book, arrivals: seq<nat>): Book {
    if arrivals == [] then b else Land(Arrive(b, arrivals[..|arrivals| - 1]), arrivals[|arrivals| - 1])
  }

  lemma {:induction false} SumToJoins(ts: seq<Transfer>, more: seq<Transfer>, address: string)
    ensures SumTo(ts + more, address) == SumTo(ts, address) + SumTo(more, address)
  {
    if more == [] {
      assert ts + more == ts;
    } else {
      assert (ts + more)[..|ts + more| - 1] == ts + more[..|more| - 1];
      SumToJoins(ts, more[..|more| - 1], address);
    }
  }

  lemma SumToOne(t: Transfer, address: string)
    ensures SumTo([t], address) == if t.address == address then t.value else 0
  {
    assert [t][..0] == [];
  }

  lemma LandKeepsDue(b: Book, i: nat, address: string)
    ensures Due(Land(b, i), address) == Due(b, address) && Balance(Land(b, i), address) >= Balance(b, address)
  {
    if i < |b.pending| {
      var t := b.pending[i];
      assert b.pending == b.pending[..i] + [t] + b.pending[i + 1..];
      SumToJoins(b.pending[..i] + [t], b.pending[i + 1..], address);
      SumToJoins(b.pending[..i], [t], address);
      SumToJoins(b.pending[..i], b.pending[i + 1..], address);
      SumToOne(t, address);
    }
  }

  // Landing moves what is under way into the balances, and nothing else.
  lemma {:induction false} ArriveKeepsDue(b: Book, arrivals: seq<nat>, address: string)
    ensures Due(Arrive(b, arrivals), address) == Due(b, address)
    ensures Balance(Arrive(b, arrivals), address) >= Balance(b, address)
  {
    if arrivals != [] {
      ArriveKeepsDue(b, arrivals[..|arrivals| - 1], address);
      LandKeepsDue(Arrive(b, arrivals[..|arrivals| - 1]), arrivals[|arrivals| - 1], address);
    }
  }

  function Zeros(n: nat): (r: seq<nat>)
    ensures |r| == n
  {
    if n == 0 then [] else Zeros(n - 1) + [0]
  }

  // Everything under way can land.
  lemma {:induction false} AllArrives(b: Book, n: nat)
    requires n <= |b.pending|
    ensures Arrive(b, Zeros(n)).pending == b.pending[n..]
  {
    if n > 0 {
      AllArrives(b, n - 1);
      assert Zeros(n)[..n - 1] == Zeros(n - 1);
    }
  }

  // --- One top-up --------------------------------------------------------------------------------------------

  // What the receipt poll comes to: a receipt, none in time, or a read error.
  datatype Poll = Mined | Reverted | TimedOut | PollFailed

  // fwd or the node refuses, or the node's reply is lost and the transfer is under way all the same; otherwise it is
  // broadcast, others land meanwhile, and the closing balance is read or not.
  datatype Sending = Refused | ReplyLost | Polled(poll: Poll, meanwhile: seq<nat>, closing: bool)

  // One account's turn: what lands before its balance is read, whether it can be read, and what becomes of a top-up.
  datatype Step = Step(arrivals: seq<nat>, readable: bool, sending: Sending)

  function Sent(b: Book, t: Transfer, s: Sending): Book {
    match s
    case Refused => b
    case ReplyLost => b.(pending := b.pending + [t])
    case Polled(Mined, meanwhile, _) => Arrive(Credit(b, t), meanwhile)
    case Polled(Reverted, meanwhile, _) => Arrive(b, meanwhile)
    case Polled(_, meanwhile, _) => Arrive(b.(pending := b.pending + [t]), meanwhile)
  }

  // The exceptions that leave the pass after the money moved.
  predicate Raises(s: Sending) {
    s.Polled? && (s.poll == PollFailed || !s.closing)
  }

  // What was broadcast, and what of it counts for its address in the end.
  function Broadcast(t: Transfer, s: Sending): seq<Transfer> {
    if s == Refused then [] else [t]
  }

  function Effective(t: Transfer, s: Sending): seq<Transfer> {
    if s == Refused || (s.Polled? && s.poll == Reverted) then [] else [t]
  }

  // What fwd or the node refuses is all that is not broadcast, and what reverts is all that is broadcast and does not
  // count; an exception leaves the pass exactly when the receipt or the closing balance cannot be read.
  lemma SendingExactly(t: Transfer, s: Sending)
    ensures (Broadcast(t, s) == [t] <==> !s.Refused?) && (Broadcast(t, s) == [] <==> s.Refused?)
    ensures Effective(t, s) == [] <==> s.Refused? || (s.Polled? && s.poll.Reverted?)
    ensures Effective(t, s) in {[], Broadcast(t, s)}
    ensures Raises(s) <==> s.Polled? && (s.poll.PollFailed? || s.closing == false)
  {}

  lemma SentMoves(b: Book, t: Transfer, s: Sending, address: string)
    ensures Due(Sent(b, t, s), address) == Due(b, address) + SumTo(Effective(t, s), address)
    ensures Balance(Sent(b, t, s), address) >= Balance(b, address)
  {
    var on := b.(pending := b.pending + [t]);
    SumToOne(t, address);
    SumToJoins(b.pending, [t], address);
    if s.Polled? {
      ArriveKeepsDue(b, s.meanwhile, address);
      ArriveKeepsDue(on, s.meanwhile, address);
      ArriveKeepsDue(Credit(b, t), s.meanwhile, address);
    }
  }

  // --- A pass ------------------------------------------------------------------------------------------------

  // What a pass may do for an account: send a plan's amount within the band, or fill up to the band's upper bound.
  datatype Order = Give(address: string, amount: real, upper: int) | FillUp(address: string, lower: int, upper: int)

  function Wanted(o: Order, wei: int): int {
    match o
    case Give(_, amount, upper) => LineValue(amount, upper, wei)
    case FillUp(_, lower, upper) => if wei < lower * WEI then upper * WEI - wei else 0
  }

  function Share(o: Order, wei: int): nat {
    Max(0, Wanted(o, wei))
  }

  // The chain after a pass, what it broadcast, what of that counts, and whether it ended in an exception.
  datatype Ran = Ran(book: Book, sent: seq<Transfer>, effective: seq<Transfer>, raised: bool)

  function Turn(b: Book, o: Order, s: Step): Ran {
    var read := Arrive(b, s.arrivals);
    var value := Share(o, Balance(read, o.address));
    if !s.readable || value == 0 then Ran(read, [], [], false)
    else
      var t := Transfer(o.address, value);
      Ran(Sent(read, t, s.sending), Broadcast(t, s.sending), Effective(t, s.sending), Raises(s.sending))
  }

  function Pass(b: Book, orders: seq<Order>, steps: nat -> Step): Ran {
    if orders == [] then Ran(b, [], [], false)
    else
      var r, n := Pass(b, orders[..|orders| - 1], steps), |orders| - 1;
      if r.raised then r
      else
        var more := Turn(r.book, orders[n], steps(n));
        Ran(more.book, r.sent + more.sent, r.effective + more.effective, more.raised)
  }

  lemma TurnMoves(b: Book, o: Order, s: Step, address: string)
    ensures var r := Turn(b, o, s);
            && Due(r.book, address) == Due(b, address) + SumTo(r.effective, address)
            && Balance(r.book, address) >= Balance(b, address)
  {
    var read := Arrive(b, s.arrivals);
    ArriveKeepsDue(b, s.arrivals, address);
    SentMoves(read, Transfer(o.address, Share(o, Balance(read, o.address))), s.sending, address);
  }

  // Balances and transfers under way grow by exactly what was effectively sent.
  lemma {:induction false} PassConserves(b: Book, orders: seq<Order>, steps: nat -> Step, address: string)
    ensures var r := Pass(b, orders, steps);
            && Due(r.book, address) == Due(b, address) + SumTo(r.effective, address)
            && Balance(r.book, address) >= Balance(b, address)
  {
    hide Turn, Due, Balance;
    if orders != [] {
      var init, n := orders[..|orders| - 1], |orders| - 1;
      PassConserves(b, init, steps, address);
      var r := Pass(b, init, steps);
      if !r.raised {
        TurnMoves(r.book, orders[n], steps(n), address);
        SumToJoins(r.effective, Turn(r.book, orders[n], steps(n)).effective, address);
      }
    }
  }

  // What the orders for an address come to if nothing lands in between.
  function Shares(orders: seq<Order>, address: string, wei: int): nat {
    if orders == [] then 0
    else
      var o := orders[|orders| - 1];
      Shares(orders[..|orders| - 1], address, wei) + if o.address == address then Share(o, wei) else 0
  }

  lemma ShareFalls(o: Order, wei: int, later: int)
    requires wei <= later
    ensures Share(o, later) <= Share(o, wei)
  {
    match o {
      case Give(_, amount, upper) => LineValueFalls(amount, upper, wei, later);
      case FillUp(_, _, _) =>
    }
  }

  lemma TurnFits(b: Book, o: Order, s: Step, address: string, wei: int)
    requires wei <= Balance(b, address)
    ensures SumTo(Turn(b, o, s).effective, address) <= if o.address == address then Share(o, wei) else 0
  {
    hide LineValue, Wanted, Share;
    var read := Arrive(b, s.arrivals);
    ArriveKeepsDue(b, s.arrivals, address);
    var t := Transfer(o.address, Share(o, Balance(read, o.address)));
    SumToOne(t, address);
    if o.address == address { ShareFalls(o, wei, Balance(read, address)); }
  }

  lemma {:induction false} PassFits(b: Book, orders: seq<Order>, steps: nat -> Step, address: string)
    ensures SumTo(Pass(b, orders, steps).effective, address) <= Shares(orders, address, Balance(b, address))
  {
    hide Turn, Share;
    if orders != [] {
      var init, n := orders[..|orders| - 1], |orders| - 1;
      PassFits(b, init, steps, address);
      var r := Pass(b, init, steps);
      if !r.raised {
        PassConserves(b, init, steps, address);
        TurnFits(r.book, orders[n], steps(n), address, Balance(b, address));
        SumToJoins(r.effective, Turn(r.book, orders[n], steps(n)).effective, address);
      }
    }
  }

  // Nothing lands, and no poll sees a receipt.
  function Stalled(i: nat): Step {
    Step([], true, Polled(TimedOut, [], true))
  }

  lemma StalledTurn(b: Book, o: Order, address: string)
    ensures var r := Turn(b, o, Stalled(0));
            && !r.raised && r.book.balances == b.balances && Stalled(0).arrivals == []
            && SumTo(r.effective, address) == if o.address == address then Share(o, Balance(b, address)) else 0
  {
    var t := Transfer(o.address, Share(o, Balance(b, o.address)));
    SumToOne(t, address);
  }

  lemma {:induction false} StalledPass(b: Book, orders: seq<Order>, address: string)
    ensures var r := Pass(b, orders, Stalled);
            && !r.raised && r.book.balances == b.balances
            && SumTo(r.effective, address) == Shares(orders, address, Balance(b, address))
  {
    hide Turn, Share;
    if orders != [] {
      var init, n := orders[..|orders| - 1], |orders| - 1;
      StalledPass(b, init, address);
      var r := Pass(b, init, Stalled);
      assert Stalled(n) == Stalled(0);
      StalledTurn(r.book, orders[n], address);
      SumToJoins(r.effective, Turn(r.book, orders[n], Stalled(n)).effective, address);
    }
  }

  // However the steps of the pass turn out, and whatever lands afterwards, the address has at most the limit.
  ghost predicate StaysWithin(b: Book, orders: seq<Order>, address: string, limit: int) {
    forall steps: nat -> Step, later: seq<nat> :: Balance(Arrive(Pass(b, orders, steps).book, later), address) <= limit
  }

  // The worst a pass can do to an account: everything under way lands after every order was sent in full.
  lemma WorstCase(b: Book, orders: seq<Order>, address: string, limit: int)
    ensures StaysWithin(b, orders, address, limit) <==>
            Due(b, address) + Shares(orders, address, Balance(b, address)) <= limit
  {
    hide Pass, Arrive, Shares;
    if Due(b, address) + Shares(orders, address, Balance(b, address)) <= limit {
      forall steps: nat -> Step, later: seq<nat>
        ensures Balance(Arrive(Pass(b, orders, steps).book, later), address) <= limit
      {
        ArriveKeepsDue(Pass(b, orders, steps).book, later, address);
        PassConserves(b, orders, steps, address);
        PassFits(b, orders, steps, address);
      }
    }
    if StaysWithin(b, orders, address, limit) {
      var r := Pass(b, orders, Stalled);
      var later := Zeros(|r.book.pending|);
      StalledPass(b, orders, address);
      PassConserves(b, orders, Stalled, address);
      ArriveKeepsDue(r.book, later, address);
      AllArrives(r.book, |r.book.pending|);
      assert Balance(Arrive(r.book, later), address) <= limit;
      assert Due(Arrive(r.book, later), address) == Balance(Arrive(r.book, later), address);
    }
  }

  // --- Plans -------------------------------------------------------------------------------------------------

  function Accepted(lines: seq<PlanLine>): seq<PlanLine> {
    if lines == [] then []
    else Accepted(lines[..|lines| - 1]) + if lines[|lines| - 1].rejected.None? then [lines[|lines| - 1]] else []
  }

  // The accepted lines are kept, each as often and in the order in which they stand, and no other.
  lemma {:induction false} AcceptedJoins(lines: seq<PlanLine>, ln: PlanLine, more: seq<PlanLine>)
    ensures Accepted(lines + [ln] + more) ==
            Accepted(lines) + (if ln.rejected == None then [ln] else []) + Accepted(more)
  {
    if more == [] {
      assert lines + [ln] + more == lines + [ln];
      assert (lines + [ln])[..|lines|] == lines;
    } else {
      var n := |more| - 1;
      assert (lines + [ln] + more)[..|lines| + 1 + n] == lines + [ln] + more[..n];
      AcceptedJoins(lines, ln, more[..n]);
    }
  }

  // Every line names a registered account.
  predicate Known(accounts: seq<Account>, lines: seq<PlanLine>) {
    forall i :: 0 <= i < |lines| ==> Registered(accounts, Lower(lines[i].account)).Some?
  }

  function GiveFor(accounts: seq<Account>, ln: PlanLine): Order
    requires Registered(accounts, Lower(ln.account)).Some?
  {
    var a := Registered(accounts, Lower(ln.account)).value;
    Give(a.address, ln.amount, a.band.upper)
  }

  function Gives(accounts: seq<Account>, lines: seq<PlanLine>): seq<Order>
    requires Known(accounts, lines)
  {
    seq(|lines|, i requires 0 <= i < |lines| => GiveFor(accounts, lines[i]))
  }

  function FillFor(a: Account): Order {
    FillUp(a.address, a.band.lower, a.band.upper)
  }

  function FillUps(accounts: seq<Account>): seq<Order> {
    seq(|accounts|, i requires 0 <= i < |accounts| => FillFor(accounts[i]))
  }

  // No band is upside down.
  predicate WellFormed(accounts: seq<Account>) {
    forall i :: 0 <= i < |accounts| ==> accounts[i].band.lower <= accounts[i].band.upper
  }

  function SumOf(ts: seq<Transfer>): nat {
    if ts == [] then 0 else SumOf(ts[..|ts| - 1]) + ts[|ts| - 1].value
  }

  // --- Execution ---------------------------------------------------------------------------------------------

  datatype TopUp = TopUp(address: string, sent: nat, funded: bool)

  // What becomes of one account or line; Threw is an exception that nobody in the pass catches.
  datatype Attempt = Skipped | Tried(topup: TopUp) | Threw

  datatype Result = Result(topups: seq<TopUp>, skipped: nat, error: bool)

  class Treasury {
    var book: Book

    constructor (book: Book)
      ensures this.book == book
    {
      this.book := book;
    }

    // What lands in between.
    method Wait(arrivals: seq<nat>)
      modifies this
      ensures book == Arrive(old(book), arrivals)
    {
      for i := 0 to |arrivals|
        invariant book == Arrive(old(book), arrivals[..i])
      {
        assert arrivals[..i + 1][..i] == arrivals[..i];
        book := Land(book, arrivals[i]);
      }
      assert arrivals[..|arrivals|] == arrivals;
    }

    // _execute_topup; None when it raises.  A transfer counts as funded once it is mined and the balance has risen.
    method ExecuteTopUp(address: string, before: int, value: nat, s: Sending) returns (t: Option<TopUp>)
      modifies this
      ensures book == Sent(old(book), Transfer(address, value), s)
      ensures t.None? <==> Raises(s)
      ensures t.Some? ==> t.value.address == address && t.value.sent == if s.Polled? then value else 0
      ensures t.Some? ==> (t.value.funded <==> s.Polled? && s.poll == Mined && Balance(book, address) > before)
    {
      match s {
        case Refused => return Some(TopUp(address, 0, false));
        case ReplyLost =>
          book := book.(pending := book.pending + [Transfer(address, value)]);
          return Some(TopUp(address, 0, false));
        case Polled(poll, meanwhile, closing) =>
          match poll {
            case Mined => book := Credit(book, Transfer(address, value));
            case Reverted =>
            case _ => book := book.(pending := book.pending + [Transfer(address, value)]);
          }
          Wait(meanwhile);
          if poll == PollFailed || !closing { return None; }
          t := Some(TopUp(address, value, poll == Mined && Balance(book, address) > before));
      }
    }

    // One accepted line, against the balance as it is now.
    method ApplyLine(accounts: seq<Account>, ln: PlanLine, s: Step) returns (r: Attempt)
      requires Registered(accounts, Lower(ln.account)).Some?
      modifies this
      ensures book == Turn(old(book), GiveFor(accounts, ln), s).book
      ensures r == Reported(old(book), GiveFor(accounts, ln), s)
    {
      hide LineValue, Registered, Arrive;
      var a := Registered(accounts, Lower(ln.account)).value;
      Wait(s.arrivals);
      if !s.readable { return Tried(TopUp(a.address, 0, false)); }
      var before := Balance(book, a.address);
      var value := LineValue(ln.amount, a.band.upper, before);
      if value <= 0 { return Skipped; }
      var t := ExecuteTopUp(a.address, before, value, s.sending);
      r := if t.None? then Threw else Tried(t.value);
    }

    // The auto pass over one account.
    method TopUpOne(a: Account, s: Step) returns (r: Attempt)
      requires a.band.lower <= a.band.upper
      modifies this
      ensures book == Turn(old(book), FillFor(a), s).book
      ensures r == Reported(old(book), FillFor(a), s)
    {
      hide Native, Round, Arrive;
      Wait(s.arrivals);
      if !s.readable { return Tried(TopUp(a.address, 0, false)); }
      var before := Balance(book, a.address);
      RoomInWei(a.band.lower, before);
      if Native(before) >= a.band.lower as real { return Skipped; }
      RoomInWei(a.band.upper, before);
      RoundInteger(a.band.upper * WEI - before);
      var value := Round((a.band.upper as real - Native(before)) * WEI as real);
      var t := ExecuteTopUp(a.address, before, value, s.sending);
      r := if t.None? then Threw else Tried(t.value);
    }

    // The accepted lines, one after another; None when an exception ends the pass.
    method ApplyPlan(accounts: seq<Account>, lines: seq<PlanLine>, fees: bool, steps: nat -> Step)
      returns (r: Option<Result>)
      requires Known(accounts, Accepted(lines))
      modifies this
      ensures var plan := Accepted(lines);
              if plan == [] || !fees then book == old(book) && r == Some(Result([], 0, plan != []))
              else
                var pass := Pass(old(book), Gives(accounts, plan), steps);
                && book == pass.book && (r.None? <==> pass.raised)
                && (r.Some? ==> !r.value.error && |r.value.topups| + r.value.skipped == |plan|)
                && (r.Some? ==> r.value.topups == TopUps(old(book), Gives(accounts, plan), steps))
                && (r.Some? ==> Genuine(r.value.topups, pass.effective))
    {
      hide Known, Turn, Pass, Gives, Genuine, Reported, TopUps;
      var plan := Accepted(lines);
      if plan == [] { return Some(Result([], 0, false)); }
      if !fees { return Some(Result([], 0, true)); }
      var topups, skipped := [], 0;
      NoOrders(old(book), steps);
      assert plan[..0] == [];
      GivesNone(accounts);
      for i := 0 to |plan|
        invariant Known(accounts, plan[..i]) && |topups| + skipped == i
        invariant topups == TopUps(old(book), Gives(accounts, plan[..i]), steps)
        invariant var pass := Pass(old(book), Gives(accounts, plan[..i]), steps);
                  book == pass.book && !pass.raised && Genuine(topups, pass.effective)
      {
        GivesStep(accounts, plan, i);
        ghost var orders := Gives(accounts, plan[..i]);
        PassStep(old(book), orders, GiveFor(accounts, plan[i]), steps);
        var a := ApplyLine(accounts, plan[i], steps(i));
        ComesTo(Pass(old(book), orders, steps), GiveFor(accounts, plan[i]), steps(i), topups);
        TopUpsStep(old(book), orders, GiveFor(accounts, plan[i]), steps);
        if a == Threw {
          GivesRest(old(book), accounts, plan, i + 1, steps);
          return None;
        }
        if a.Tried? { topups := topups + [a.topup]; } else { skipped := skipped + 1; }
      }
      assert plan[..|plan|] == plan;
      r := Some(Result(topups, skipped, false));
    }

    // Every account below its lower bound is sent what it lacks to its upper bound; None when an exception ends it.
    method RunFunding(accounts: seq<Account>, fees: bool, steps: nat -> Step) returns (r: Option<Result>)
      requires WellFormed(accounts)
      modifies this
      ensures if !fees then book == old(book) && r == Some(Result([], 0, true))
              else
                var pass := Pass(old(book), FillUps(accounts), steps);
                && book == pass.book && (r.None? <==> pass.raised)
                && (r.Some? ==> !r.value.error && |r.value.topups| + r.value.skipped == |accounts|)
                && (r.Some? ==> r.value.topups == TopUps(old(book), FillUps(accounts), steps))
                && (r.Some? ==> Genuine(r.value.topups, pass.effective))
    {
      hide Turn, Pass, FillUps, Genuine, Reported, TopUps;
      if !fees { return Some(Result([], 0, true)); }
      var topups, skipped := [], 0;
      NoOrders(old(book), steps);
      assert FillUps(accounts[..0]) == [] by { FillUpsNone(accounts); }
      for i := 0 to |accounts|
        invariant |topups| + skipped == i
        invariant topups == TopUps(old(book), FillUps(accounts[..i]), steps)
        invariant var pass := Pass(old(book), FillUps(accounts[..i]), steps);
                  book == pass.book && !pass.raised && Genuine(topups, pass.effective)
      {
        FillUpsStep(accounts, i);
        ghost var orders := FillUps(accounts[..i]);
        PassStep(old(book), orders, FillFor(accounts[i]), steps);
        var a := TopUpOne(accounts[i], steps(i));
        ComesTo(Pass(old(book), orders, steps), FillFor(accounts[i]), steps(i), topups);
        TopUpsStep(old(book), orders, FillFor(accounts[i]), steps);
        if a == Threw {
          FillUpsRest(old(book), accounts, i + 1, steps);
          return None;
        }
        if a.Tried? { topups := topups + [a.topup]; } else { skipped := skipped + 1; }
      }
      assert accounts[..|accounts|] == accounts;
      r := Some(Result(topups, skipped, false));
    }
  }

  // How a turn is reported: as a failure when the balance cannot be read or nothing is broadcast, as skipped when there
  // is nothing to send, and as funded once the transfer is mined and the balance has risen.
  function Reported(b: Book, o: Order, s: Step): Attempt {
    var before := Balance(Arrive(b, s.arrivals), o.address);
    var value := Share(o, before);
    if !s.readable then Tried(TopUp(o.address, 0, false))
    else if value == 0 then Skipped
    else
      match s.sending
      case Polled(poll, _, closing) =>
        if poll == PollFailed || !closing then Threw
        else Tried(TopUp(o.address, value, poll == Mined && Balance(Turn(b, o, s).book, o.address) > before))
      case _ => Tried(TopUp(o.address, 0, false))
  }

  // The top-ups that a pass reports, in order.
  function TopUps(b: Book, orders: seq<Order>, steps: nat -> Step): seq<TopUp> {
    if orders == [] then []
    else
      var init, n := orders[..|orders| - 1], |orders| - 1;
      TopUps(b, init, steps) +
      match Reported(Pass(b, init, steps).book, orders[n], steps(n)) case Tried(t) => [t] case _ => []
  }

  lemma TopUpsStep(b: Book, orders: seq<Order>, o: Order, steps: nat -> Step)
    ensures TopUps(b, orders + [o], steps) ==
            TopUps(b, orders, steps) +
            match Reported(Pass(b, orders, steps).book, o, steps(|orders|)) case Tried(t) => [t] case _ => []
  {
    hide Reported, Pass;
    assert (orders + [o])[..|orders|] == orders;
  }

  // Whatever is reported as funded was sent and counts.
  ghost predicate Genuine(topups: seq<TopUp>, effective: seq<Transfer>) {
    forall t :: t in topups && t.funded ==> Transfer(t.address, t.sent) in effective
  }

  lemma NoOrders(b: Book, steps: nat -> Step)
    ensures Pass(b, [], steps) == Ran(b, [], [], false) && TopUps(b, [], steps) == [] && Genuine([], [])
  {}

  lemma PassStep(b: Book, orders: seq<Order>, o: Order, steps: nat -> Step)
    requires !Pass(b, orders, steps).raised
    ensures var r, more := Pass(b, orders, steps), Turn(Pass(b, orders, steps).book, o, steps(|orders|));
            Pass(b, orders + [o], steps) ==
              Ran(more.book, r.sent + more.sent, r.effective + more.effective, more.raised)
  {
    assert (orders + [o])[..|orders|] == orders;
  }

  // An exception ends the pass.
  lemma {:induction false} PassStops(b: Book, orders: seq<Order>, k: nat, steps: nat -> Step)
    requires k <= |orders| && Pass(b, orders[..k], steps).raised
    ensures Pass(b, orders, steps) == Pass(b, orders[..k], steps)
    decreases |orders|
  {
    if k < |orders| {
      assert orders[..|orders| - 1][..k] == orders[..k];
      PassStops(b, orders[..|orders| - 1], k, steps);
    } else {
      assert orders[..k] == orders;
    }
  }

  // A turn threw exactly if it ends the pass, was skipped exactly if it was read and has nothing to send, and what it
  // reports as funded counts.
  lemma ReportedMeans(b: Book, o: Order, s: Step)
    ensures var r, turn := Reported(b, o, s), Turn(b, o, s);
            && (r == Threw <==> turn.raised)
            && (r == Skipped <==> s.readable && Share(o, Balance(Arrive(b, s.arrivals), o.address)) == 0)
            && (r.Tried? && r.topup.funded ==>
                turn.effective == [Transfer(o.address, r.topup.sent)] && r.topup.address == o.address)
  {
    hide Share, Arrive, Balance;
  }

  lemma ComesTo(pass: Ran, o: Order, s: Step, topups: seq<TopUp>)
    requires Genuine(topups, pass.effective)
    ensures Reported(pass.book, o, s) == Threw <==> Turn(pass.book, o, s).raised
    ensures var a, effective := Reported(pass.book, o, s), pass.effective + Turn(pass.book, o, s).effective;
            Genuine(topups, effective) && (a.Tried? ==> Genuine(topups + [a.topup], effective))
  {
    hide Turn, Reported;
    ReportedMeans(pass.book, o, s);
  }

  lemma GivesNone(accounts: seq<Account>)
    ensures Known(accounts, []) && Gives(accounts, []) == []
  {}

  lemma GivesStep(accounts: seq<Account>, plan: seq<PlanLine>, i: nat)
    requires i < |plan| && Known(accounts, plan)
    ensures Known(accounts, plan[..i]) && Known(accounts, plan[..i + 1])
    ensures Registered(accounts, Lower(plan[i].account)).Some?
    ensures Gives(accounts, plan[..i + 1]) == Gives(accounts, plan[..i]) + [GiveFor(accounts, plan[i])]
    ensures |Gives(accounts, plan[..i])| == i
  {}

  lemma GivesRest(b: Book, accounts: seq<Account>, plan: seq<PlanLine>, i: nat, steps: nat -> Step)
    requires i <= |plan| && Known(accounts, plan) && Known(accounts, plan[..i])
    requires Pass(b, Gives(accounts, plan[..i]), steps).raised
    ensures Pass(b, Gives(accounts, plan), steps) == Pass(b, Gives(accounts, plan[..i]), steps)
  {
    assert Gives(accounts, plan)[..i] == Gives(accounts, plan[..i]);
    PassStops(b, Gives(accounts, plan), i, steps);
  }

  lemma FillUpsNone(accounts: seq<Account>)
    ensures FillUps(accounts[..0]) == []
  {}

  lemma FillUpsStep(accounts: seq<Account>, i: nat)
    requires i < |accounts|
    ensures FillUps(accounts[..i + 1]) == FillUps(accounts[..i]) + [FillFor(accounts[i])]
    ensures |FillUps(accounts[..i])| == i
  {}

  lemma FillUpsRest(b: Book, accounts: seq<Account>, i: nat, steps: nat -> Step)
    requires i <= |accounts| && Pass(b, FillUps(accounts[..i]), steps).raised
    ensures Pass(b, FillUps(accounts), steps) == Pass(b, FillUps(accounts[..i]), steps)
  {
    assert FillUps(accounts)[..i] == FillUps(accounts[..i]);
    PassStops(b, FillUps(accounts), i, steps);
  }

  // --- What a plan spends ------------------------------------------------------------------------------------

  // What the lines allow, in wei.
  function Allowed(lines: seq<PlanLine>): nat {
    if lines == [] then 0
    else Allowed(lines[..|lines| - 1]) + Max(0, Round(lines[|lines| - 1].amount * WEI as real))
  }

  lemma {:induction false} SumOfJoins(ts: seq<Transfer>, more: seq<Transfer>)
    ensures SumOf(ts + more) == SumOf(ts) + SumOf(more)
  {
    if more == [] {
      assert ts + more == ts;
    } else {
      assert (ts + more)[..|ts + more| - 1] == ts + more[..|more| - 1];
      SumOfJoins(ts, more[..|more| - 1]);
    }
  }

  lemma TurnSpends(b: Book, o: Order, s: Step)
    requires o.Give?
    ensures SumOf(Turn(b, o, s).sent) <= Max(0, Round(o.amount * WEI as real))
  {
    hide LineValue, Round;
    var read := Arrive(b, s.arrivals);
    LineValueFits(o.amount, o.upper, Balance(read, o.address));
    var t := Transfer(o.address, Share(o, Balance(read, o.address)));
    assert SumOf([t]) == t.value by { assert [t][..0] == []; }
  }

  lemma OneMoreSpends(b: Book, orders: seq<Order>, o: Order, steps: nat -> Step)
    requires o.Give?
    ensures SumOf(Pass(b, orders + [o], steps).sent) <=
            SumOf(Pass(b, orders, steps).sent) + Max(0, Round(o.amount * WEI as real))
  {
    hide Turn, Round, Pass;
    var r := Pass(b, orders, steps);
    if r.raised {
      assert (orders + [o])[..|orders|] == orders;
      PassStops(b, orders + [o], |orders|, steps);
    } else {
      PassStep(b, orders, o, steps);
      TurnSpends(r.book, o, steps(|orders|));
      SumOfJoins(r.sent, Turn(r.book, o, steps(|orders|)).sent);
    }
  }

  // A plan broadcasts no more than its lines allow, whatever becomes of the transfers.
  lemma {:induction false} PassSpends(b: Book, accounts: seq<Account>, lines: seq<PlanLine>, steps: nat -> Step)
    requires Known(accounts, lines)
    ensures SumOf(Pass(b, Gives(accounts, lines), steps).sent) <= Allowed(lines)
  {
    hide Round, Known, Gives, Pass, Registered;
    GivesNone(accounts);
    if lines == [] {
      NoOrders(b, steps);
    } else {
      var n := |lines| - 1;
      assert lines[..n + 1] == lines;
      GivesStep(accounts, lines, n);
      PassSpends(b, accounts, lines[..n], steps);
      OneMoreSpends(b, Gives(accounts, lines[..n]), GiveFor(accounts, lines[n]), steps);
    }
  }

  lemma {:induction false} AcceptedIsAllowed(lines: seq<PlanLine>, cap: real)
    requires forall i :: 0 <= i < |lines| ==> Capped(lines[i], cap)
    ensures Allowed(Accepted(lines)) as real == Total(lines) * WEI as real
  {
    hide Round, OnGrid, NextMillionth;
    if lines != [] {
      var init, ln := lines[..|lines| - 1], lines[|lines| - 1];
      AcceptedIsAllowed(init, cap);
      assert Capped(ln, cap);
      if ln.rejected.None? {
        AmountInWei(ln.amount);
        assert (Accepted(init) + [ln])[..|Accepted(init)|] == Accepted(init);
        assert Allowed(Accepted(lines)) == Allowed(Accepted(init)) + Max(0, Round(ln.amount * WEI as real));
        TokensInWei(Total(init), ln.amount);
        assert Total(lines) == Total(init) + ln.amount;
        assert (Allowed(Accepted(init)) + Max(0, Round(ln.amount * WEI as real))) as real == Total(lines) * WEI as real;
      } else {
        assert Accepted(lines) == Accepted(init);
      }
    }
  }

  lemma TokensInWei(x: real, y: real)
    ensures (x + y) * WEI as real == x * WEI as real + y * WEI as real
  {}

  lemma AmountInWei(amount: real)
    requires OnGrid(amount) && amount > 0.0
    ensures Max(0, Round(amount * WEI as real)) as real == amount * WEI as real
  {
    var n := Millionths(amount) * 1_000_000_000_000;
    assert amount * WEI as real == n as real;
    RoundInteger(n);
  }

  // A validated plan, however its transfers turn out, takes no more from the funder than it had, but for the tolerance.
  lemma PlanNeverOverspends(accounts: seq<Account>, items: seq<Item>, balances: map<string, real>, funder: real,
                            cap: real, lines: seq<PlanLine>, b: Book, steps: nat -> Step)
    requires Validated(accounts, items, balances, funder, cap, lines) && funder >= 0.0
    ensures Known(accounts, Accepted(lines))
    ensures var spent := SumOf(Pass(b, Gives(accounts, Accepted(lines)), steps).sent) as real;
            && spent <= (funder + TOLERANCE) * WEI as real
            && (NextMillionth(funder) > funder + TOLERANCE ==> spent <= funder * WEI as real)
  {
    hide Validated, Pass, Capped, NextMillionth, OnGrid, Known, Gives;
    PlanIsAffordable(accounts, items, balances, funder, cap, lines);
    AcceptedAreKnown(accounts, items, balances, funder, cap, lines);
    AcceptedIsAllowed(lines, cap);
    PassSpends(b, accounts, Accepted(lines), steps);
  }

  lemma {:induction false} AcceptedAreKnown(accounts: seq<Account>, items: seq<Item>, balances: map<string, real>,
                                            funder: real, cap: real, lines: seq<PlanLine>)
    requires Validated(accounts, items, balances, funder, cap, lines)
    ensures Known(accounts, Accepted(lines))
  {
    hide Judges;
    if lines != [] {
      ValidatedInit(accounts, items, balances, funder, cap, lines);
      AcceptedAreKnown(accounts, items[..|items| - 1], balances, funder, cap, lines[..|lines| - 1]);
      JudgedIsKnown(accounts, items[|items| - 1], balances, funder, cap, Total(lines[..|lines| - 1]),
                    lines[|lines| - 1]);
    }
  }

  // --- The bands under all outcomes --------------------------------------------------------------------------

  // A plan keeps an account within its band, or where it was, under all outcomes exactly if what is under way to it
  // and what its accepted lines come to, each taken alone, fit together into its room.
  lemma PlanKeepsBandExactly(b: Book, accounts: seq<Account>, plan: seq<PlanLine>, a: Account)
    requires Known(accounts, plan)
    ensures var wei := Balance(b, a.address);
            StaysWithin(b, Gives(accounts, plan), a.address, Max(wei, a.band.upper * WEI)) <==>
            SumTo(b.pending, a.address) + Shares(Gives(accounts, plan), a.address, wei) <=
              Max(0, a.band.upper * WEI - wei)
  {
    hide StaysWithin, Shares, Known;
    WorstCase(b, Gives(accounts, plan), a.address, Max(Balance(b, a.address), a.band.upper * WEI));
  }

  // Nothing under way and one accepted line for the account are enough.
  lemma OneLineKeepsBand(b: Book, accounts: seq<Account>, plan: seq<PlanLine>, a: Account, k: nat)
    requires Known(accounts, plan) && k < |plan| && SumTo(b.pending, a.address) == 0
    requires GiveFor(accounts, plan[k]).address == a.address && GiveFor(accounts, plan[k]).upper == a.band.upper
    requires forall i :: 0 <= i < |plan| && i != k ==> GiveFor(accounts, plan[i]).address != a.address
    ensures StaysWithin(b, Gives(accounts, plan), a.address, Max(Balance(b, a.address), a.band.upper * WEI))
  {
    hide StaysWithin, Shares, LineValue, Registered;
    var orders, wei := Gives(accounts, plan), Balance(b, a.address);
    assert forall i :: 0 <= i < |orders| ==> orders[i] == GiveFor(accounts, plan[i]);
    OneShare(orders, a.address, wei, k);
    LineValueFits(plan[k].amount, a.band.upper, wei);
    PlanKeepsBandExactly(b, accounts, plan, a);
  }

  lemma {:induction false} NoShare(orders: seq<Order>, address: string, wei: int)
    requires forall i :: 0 <= i < |orders| ==> orders[i].address != address
    ensures Shares(orders, address, wei) == 0
  {
    if orders != [] { NoShare(orders[..|orders| - 1], address, wei); }
  }

  lemma {:induction false} OneShare(orders: seq<Order>, address: string, wei: int, k: nat)
    requires k < |orders| && orders[k].address == address
    requires forall i :: 0 <= i < |orders| && i != k ==> orders[i].address != address
    ensures Shares(orders, address, wei) == Share(orders[k], wei)
  {
    hide Share;
    if k == |orders| - 1 {
      NoShare(orders[..k], address, wei);
    } else {
      OneShare(orders[..|orders| - 1], address, wei, k);
    }
  }

  // Two accepted lines of 150 each for an account with 250 and an upper bound of 400: both polls time out, both
  // transfers land, and the account has 550.
  lemma TwoLinesOverfill(b: Book)
    requires b == Book(map["b" := 250 * WEI], [])
    ensures var accounts, it := [Account("a", "b", Band(250, 400))], Amount("a", 150.0);
            var plan := [PlanLine("a", "b", 150.0, None), PlanLine("a", "b", 150.0, None)];
            && Validated(accounts, [it, it], map["b" := 250.0], 1000.0, 400.0, plan)
            && Accepted(plan) == plan && Known(accounts, plan)
            && !StaysWithin(b, Gives(accounts, plan), "b", 400 * WEI)
            && forall limit :: StaysWithin(b, Gives(accounts, plan), "b", limit) <==> 550 * WEI <= limit
  {
    hide StaysWithin, Judges, Validated, Shares, LineValue, Registered;
    var a, it, line := Account("a", "b", Band(250, 400)), Amount("a", 150.0), PlanLine("a", "b", 150.0, None);
    var accounts, plan, balances := [a], [line, line], map["b" := 250.0];
    assert Lower("a") == "a";
    OnlyOne(a);
    JudgeOf150(a, it, line);
    NothingValidated(accounts, balances, 1000.0, 400.0);
    ValidatedSnoc(accounts, [], it, balances, 1000.0, 400.0, [], line);
    ValidatedSnoc(accounts, [] + [it], it, balances, 1000.0, 400.0, [] + [line], line);
    assert [it, it] == [] + [it] + [it] && plan == [] + [line] + [line];
    assert plan[..1][..0] == [] && plan[..1] == [line];
    var o := Give("b", 150.0, 400);
    assert Gives(accounts, plan) == [o, o];
    TwoShares(o, 250 * WEI);
    forall limit
      ensures StaysWithin(b, [o, o], "b", limit) <==> 550 * WEI <= limit
    {
      WorstCase(b, [o, o], "b", limit);
    }
  }

  lemma OnlyOne(a: Account)
    ensures Registered([a], Lower(a.name)) == Some(a)
  {}

  lemma JudgeOf150(a: Account, it: Item, line: PlanLine)
    requires a == Account("a", "b", Band(250, 400)) && it == Amount("a", 150.0)
    requires line == PlanLine("a", "b", 150.0, None)
    ensures Judges([a], it, map["b" := 250.0], 1000.0, 400.0, 0.0, line)
    ensures Judges([a], it, map["b" := 250.0], 1000.0, 400.0, 150.0, line)
  {
    RoundInteger(150_000_000);
    assert D.Strip("a") == "a" && Lower("a") == "a" && Lower("b") == "b";
  }

  lemma TwoShares(o: Order, wei: int)
    requires o == Give("b", 150.0, 400) && wei == 250 * WEI
    ensures Shares([o, o], "b", wei) == 300 * WEI
  {
    var orders := [o, o];
    OneShare([o], "b", wei, 0);
    assert orders[..1] == [o];
    LineValueFits(150.0, 400, wei);
    RoundInteger(150 * WEI);
    assert 150.0 * WEI as real == (150 * WEI) as real;
    assert Share(o, wei) == 150 * WEI;
    assert Shares(orders, "b", wei) == Shares(orders[..1], "b", wei) + Share(o, wei);
  }

  // An auto pass never lifts an account above its band exactly if nothing is under way to an account that it fills up.
  lemma AutoKeepsBandExactly(b: Book, accounts: seq<Account>, k: nat)
    requires k < |accounts| && WellFormed(accounts)
    requires forall i :: 0 <= i < |accounts| && i != k ==> accounts[i].address != accounts[k].address
    ensures var a := accounts[k];
            var wei, coming := Balance(b, a.address), SumTo(b.pending, a.address);
            StaysWithin(b, FillUps(accounts), a.address, Max(wei, a.band.upper * WEI)) <==>
            coming == 0 || (wei >= a.band.lower * WEI && wei + coming <= a.band.upper * WEI)
  {
    hide StaysWithin, Shares;
    var a, orders := accounts[k], FillUps(accounts);
    assert forall i :: 0 <= i < |orders| ==> orders[i].address == accounts[i].address;
    OneShare(orders, a.address, Balance(b, a.address), k);
    WorstCase(b, orders, a.address, Max(Balance(b, a.address), a.band.upper * WEI));
  }

  // --- A pass on which everything goes well -------------------------------------------------------------------

  function Smooth(i: nat): Step {
    Step([], true, Polled(Mined, [], true))
  }

  lemma SmoothTurn(b: Book, o: Order, address: string)
    ensures var r := Turn(b, o, Smooth(0));
            && !r.raised && r.book.pending == b.pending
            && Balance(r.book, address) ==
               Balance(b, address) + if o.address == address then Share(o, Balance(b, address)) else 0
  {}

  // Then every account below its lower bound is exactly at its upper bound, and nothing else moves.
  lemma {:induction false} SmoothPass(b: Book, accounts: seq<Account>, address: string)
    requires WellFormed(accounts)
    requires forall i, j :: 0 <= i < j < |accounts| ==> accounts[i].address != accounts[j].address
    ensures var r := Pass(b, FillUps(accounts), Smooth);
            && !r.raised && r.book.pending == b.pending
            && (forall k :: 0 <= k < |accounts| && accounts[k].address == address ==>
                  Balance(r.book, address) ==
                  if Balance(b, address) < accounts[k].band.lower * WEI then accounts[k].band.upper * WEI
                  else Balance(b, address))
            && ((forall k :: 0 <= k < |accounts| ==> accounts[k].address != address) ==>
                  Balance(r.book, address) == Balance(b, address))
  {
    hide Turn, FillUps;
    if accounts == [] {
      FillUpsNone(accounts);
    } else {
      var n := |accounts| - 1;
      assert accounts[..n + 1] == accounts;
      SmoothPass(b, accounts[..n], address);
      FillUpsStep(accounts, n);
      PassStep(b, FillUps(accounts[..n]), FillFor(accounts[n]), Smooth);
      assert Smooth(n) == Smooth(0);
      SmoothTurn(Pass(b, FillUps(accounts[..n]), Smooth).book, FillFor(accounts[n]), address);
    }
  }
}
