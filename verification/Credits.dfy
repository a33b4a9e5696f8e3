/**
 * Sojourn credits: balances (`src/utils/wallet-utils.ts`), confirmation after a
 * payment (`src/repositories/credits.repository.ts`, `src/tasks/tasks.service.ts`,
 * `src/payments/payments.service.ts`).
 */
module Credits {
  import opened Wrappers
  import opened Entities
  import opened Totals

  // ---------- Balances ----------

  function SumAmounts(credits: seq<Credit>): int {
    if credits == [] then 0 else SumAmounts(credits[..|credits| - 1]) + credits[|credits| - 1].amount
  }

  /** Each record with its amount replaced by the total up to and including it. */
  function RunningTotals(credits: seq<Credit>): seq<Credit> {
    seq(|credits|, i requires 0 <= i < |credits| => credits[i].(amount := SumAmounts(credits[..i + 1])))
  }

  function ConfirmedFor(user: Id): Credit -> bool {
    (c: Credit) => c.user == user && c.status.Confirmed?
  }

  function ConfirmedBalance(credits: seq<Credit>, user: Id): int {
    SumAmounts(Select(credits, ConfirmedFor(user)))
  }

  /** The reducer adds the running total into each record it visits, and returns the last one. */
  method CalculateTotalCredits(values: array<Credit>) returns (total: int)
    modifies values
    ensures total == SumAmounts(old(values[..]))
    ensures values[..] == RunningTotals(old(values[..]))
  {
    ghost var before := values[..];
    total := 0;
    for i := 0 to values.Length
      invariant total == SumAmounts(before[..i])
      invariant values[..i] == RunningTotals(before)[..i]
      invariant values[i..] == before[i..]
    {
      assert values[i] == before[i];
      assert before[..i + 1][..i] == before[..i];
      values[i] := values[i].(amount := values[i].amount + total);
      total := values[i].amount;
    }
    assert before[..values.Length] == before;
  }

  datatype FormattedCredit = FormattedCredit(total: int, amount: int, kind: CreditType)

  method FormatSojournCredits(values: seq<Credit>) returns (formatted: seq<FormattedCredit>)
    ensures |formatted| == |values|
    ensures forall i :: 0 <= i < |values| ==>
              && formatted[i].total == SumAmounts(values)
              && formatted[i].amount == values[i].amount
              && (formatted[i].kind.Outgoing? <==> values[i].amount < 0)
  {
    var total := 0;
    for i := 0 to |values|
      invariant total == SumAmounts(values[..i])
    {
      assert values[..i + 1][..i] == values[..i];
      total := total + values[i].amount;
    }
    assert values[..|values|] == values;
    formatted := seq(|values|, i requires 0 <= i < |values| =>
      FormattedCredit(total, values[i].amount, if values[i].amount < 0 then Outgoing else Incoming));
  }

  lemma {:induction false} SumOfConcat(a: seq<Credit>, b: seq<Credit>)
    ensures SumAmounts(a + b) == SumAmounts(a) + SumAmounts(b)
  {
    if b == [] {
      assert a + b == a;
    } else {
      assert (a + b)[..|a + b| - 1] == a + b[..|b| - 1];
      SumOfConcat(a, b[..|b| - 1]);
    }
  }

  lemma {:induction false} RemovingOne(credits: seq<Credit>, k: nat)
    requires k < |credits|
    ensures SumAmounts(credits) == SumAmounts(credits[..k] + credits[k + 1..]) + credits[k].amount
    ensures multiset(credits) == multiset(credits[..k] + credits[k + 1..]) + multiset{credits[k]}
  {
    assert credits == credits[..k] + ([credits[k]] + credits[k + 1..]);
    SumOfConcat(credits[..k], [credits[k]] + credits[k + 1..]);
    SumOfConcat([credits[k]], credits[k + 1..]);
    SumOfConcat(credits[..k], credits[k + 1..]);
    assert SumAmounts([credits[k]]) == credits[k].amount;
  }

  /** The total does not depend on the order in which the records were fetched. */
  lemma {:induction false} TotalIgnoresOrder(a: seq<Credit>, b: seq<Credit>)
    requires multiset(a) == multiset(b)
    ensures SumAmounts(a) == SumAmounts(b)
  {
    if a == [] {
      assert |multiset(b)| == 0;
    } else {
      var last := |a| - 1;
      assert a[last] in multiset(b);
      var k :| 0 <= k < |b| && b[k] == a[last];
      RemovingOne(a, last);
      RemovingOne(b, k);
      var a', b' := a[..last] + a[last + 1..], b[..k] + b[k + 1..];
      assert multiset(a') == multiset(a) - multiset{a[last]};
      assert multiset(b') == multiset(b) - multiset{a[last]};
      TotalIgnoresOrder(a', b');
    }
  }

  /** The two rows a transfer appends; both keep the default status. */
  function TransferRows(sender: Id, to: string, recipient: Id, amount: int): seq<Credit> {
    [Credit(sender, -amount, to, Unconfirmed, Outgoing), Credit(recipient, amount, sender, Unconfirmed, Incoming)]
  }

  function BelongsTo(user: Id): Credit -> bool {
    (c: Credit) => c.user == user
  }

  /** The sum of a user's records, confirmed or not. */
  function RecordedTotal(credits: seq<Credit>, user: Id): int {
    SumAmounts(Select(credits, BelongsTo(user)))
  }

  lemma {:induction false} SelectFromConcat(a: seq<Credit>, b: seq<Credit>, keep: Credit -> bool)
    ensures Select(a + b, keep) == Select(a, keep) + Select(b, keep)
  {
    if b == [] {
      assert a + b == a;
    } else {
      assert (a + b)[..|a + b| - 1] == a + b[..|b| - 1];
      SelectFromConcat(a, b[..|b| - 1], keep);
    }
  }

  lemma {:induction false} SumAfterAppending(credits: seq<Credit>, c: Credit, keep: Credit -> bool)
    ensures SumAmounts(Select(credits + [c], keep))
            == SumAmounts(Select(credits, keep)) + if keep(c) then c.amount else 0
  {
    assert (credits + [c])[..|credits|] == credits;
    if keep(c) {
      assert Select(credits + [c], keep)[..|Select(credits, keep)|] == Select(credits, keep);
    }
  }

  /**
   * A transfer moves the amount between the two users' records and conserves
   * the sum over all users. It also leaves every confirmed
   * balance where it was, because the rows it appends are not confirmed.
   */
  lemma {:induction false} TransferConservesCredits(
    credits: seq<Credit>, sender: Id, to: string, recipient: Id, amount: int, user: Id)
    ensures SumAmounts(credits + TransferRows(sender, to, recipient, amount)) == SumAmounts(credits)
    ensures RecordedTotal(credits + TransferRows(sender, to, recipient, amount), user)
            == RecordedTotal(credits, user)
               - (if user == sender then amount else 0) + if user == recipient then amount else 0
    ensures ConfirmedBalance(credits + TransferRows(sender, to, recipient, amount), user)
            == ConfirmedBalance(credits, user)
  {
    var rows := TransferRows(sender, to, recipient, amount);
    assert credits + rows == credits + [rows[0]] + [rows[1]];
    assert (credits + [rows[0]])[..|credits|] == credits;
    assert (credits + rows)[..|credits| + 1] == credits + [rows[0]];
    SumAfterAppending(credits, rows[0], BelongsTo(user));
    SumAfterAppending(credits + [rows[0]], rows[1], BelongsTo(user));
    SumAfterAppending(credits, rows[0], ConfirmedFor(user));
    SumAfterAppending(credits + [rows[0]], rows[1], ConfirmedFor(user));
  }

  // ---------- Confirmation ----------

  /** The rows of a new booking: the credits used, taken off, and the credits earned; both wait for the payment. */
  function OpeningRows(user: Id, used: int, earned: int, reference: string): seq<Credit> {
    (if used > 0 then [Credit(user, -used, reference, Unconfirmed, Outgoing)] else [])
    + [Credit(user, earned, reference, Unconfirmed, Incoming)]
  }

  /** The webhook sets the status of every credit that carries the reference. */
  function MarkAll(credits: seq<Credit>, reference: string, status: CreditStatus): seq<Credit> {
    Map(credits, (c: Credit) => if c.reference == reference then c.(status := status) else c)
  }

  predicate IsOpen(c: Credit, reference: string) {
    c.reference == reference && c.status.Unconfirmed?
  }

  function LastOpen(credits: seq<Credit>, reference: string): (found: Option<nat>)
    ensures found.None? <==> forall i :: 0 <= i < |credits| ==> !IsOpen(credits[i], reference)
    ensures found.Some? ==> found.value < |credits| && IsOpen(credits[found.value], reference)
  {
    if credits == [] then None
    else if IsOpen(credits[|credits| - 1], reference) then Some(|credits| - 1)
    else LastOpen(credits[..|credits| - 1], reference)
  }

  /** `findOne` promises some open credit, no particular one: `hint` stands for the database's choice. */
  function FindOneOpen(credits: seq<Credit>, reference: string, hint: nat): (found: Option<nat>)
    ensures found.None? <==> forall i :: 0 <= i < |credits| ==> !IsOpen(credits[i], reference)
    ensures found.Some? ==> found.value < |credits| && IsOpen(credits[found.value], reference)
    ensures hint < |credits| && IsOpen(credits[hint], reference) ==> found == Some(hint)
  {
    if hint < |credits| && IsOpen(credits[hint], reference) then Some(hint) else LastOpen(credits, reference)
  }

  type Hints = map<string, nat>

  function HintFor(hints: Hints, reference: string): nat {
    if reference in hints then hints[reference] else 0
  }

  function ConfirmOne(credits: seq<Credit>, reference: string, hints: Hints): (result: seq<Credit>)
    ensures |result| == |credits|
    ensures forall i :: 0 <= i < |credits| ==> result[i] in {credits[i], credits[i].(status := Confirmed)}
  {
    match FindOneOpen(credits, reference, HintFor(hints, reference))
    case None => credits
    case Some(i) => credits[i := credits[i].(status := Confirmed)]
  }

  /** One pass of the cron over the references of the completed payments. */
  function ConfirmEach(credits: seq<Credit>, references: seq<string>, hints: Hints): (result: seq<Credit>)
    ensures |result| == |credits|
    ensures forall i :: 0 <= i < |credits| ==> result[i] in {credits[i], credits[i].(status := Confirmed)}
  {
    if references == [] then credits
    else ConfirmOne(ConfirmEach(credits, references[..|references| - 1], hints), references[|references| - 1], hints)
  }

  function ConfirmRepeatedly(credits: seq<Credit>, references: seq<string>, passes: seq<Hints>): (result: seq<Credit>)
    ensures |result| == |credits|
  {
    if passes == [] then credits
    else ConfirmEach(ConfirmRepeatedly(credits, references, passes[..|passes| - 1]), references, passes[|passes| - 1])
  }

  function OpenWith(reference: string): Credit -> bool {
    (c: Credit) => IsOpen(c, reference)
  }

  function OpenCount(credits: seq<Credit>, reference: string): nat {
    Count(credits, OpenWith(reference))
  }

  predicate Distinct(references: seq<string>) {
    forall i, j :: 0 <= i < j < |references| ==> references[i] != references[j]
  }

  /** Rows only move from open to confirmed, and only under one of the references. */
  predicate OnlyConfirms(before: seq<Credit>, after: seq<Credit>, references: seq<string>) {
    && |before| == |after|
    && forall i :: 0 <= i < |before| ==>
         || after[i] == before[i]
         || (&& before[i].reference in references && before[i].status.Unconfirmed?
             && after[i] == before[i].(status := Confirmed))
  }

  /** One less when there is one to confirm. */
  function OneLess(n: nat): nat {
    if n == 0 then 0 else n - 1
  }

  lemma {:induction false} ConfirmOneTakesOne(credits: seq<Credit>, reference: string, hints: Hints)
    ensures OnlyConfirms(credits, ConfirmOne(credits, reference, hints), [reference])
    ensures forall r :: OpenCount(ConfirmOne(credits, reference, hints), r)
                        == if r == reference then OneLess(OpenCount(credits, r)) else OpenCount(credits, r)
  {
    CountIsZeroExactly(credits, OpenWith(reference));
    match FindOneOpen(credits, reference, HintFor(hints, reference))
    case None =>
    case Some(i) =>
      forall r ensures OpenCount(ConfirmOne(credits, reference, hints), r)
                       == OpenCount(credits, r) - if r == reference then 1 else 0
      {
        CountReplaced(credits, i, credits[i].(status := Confirmed), OpenWith(r));
      }
  }

  /** Whichever credit each lookup picks, a pass confirms exactly one per completed payment that has any. */
  lemma {:induction false} OnePassConfirmsOneEach(credits: seq<Credit>, references: seq<string>, hints: Hints)
    requires Distinct(references)
    ensures OnlyConfirms(credits, ConfirmEach(credits, references, hints), references)
    ensures forall r :: OpenCount(ConfirmEach(credits, references, hints), r)
                        == if r in references then OneLess(OpenCount(credits, r)) else OpenCount(credits, r)
  {
    if references != [] {
      var init, last := references[..|references| - 1], references[|references| - 1];
      OnePassConfirmsOneEach(credits, init, hints);
      ConfirmOneTakesOne(ConfirmEach(credits, init, hints), last, hints);
      assert references == init + [last];
      assert last !in init;
    }
  }

  lemma {:induction false} PassesCountDown(credits: seq<Credit>, references: seq<string>, passes: seq<Hints>)
    requires Distinct(references)
    ensures OnlyConfirms(credits, ConfirmRepeatedly(credits, references, passes), references)
    ensures forall r :: r in references ==>
              OpenCount(ConfirmRepeatedly(credits, references, passes), r)
              == if OpenCount(credits, r) <= |passes| then 0 else OpenCount(credits, r) - |passes|
  {
    if passes != [] {
      var init := passes[..|passes| - 1];
      PassesCountDown(credits, references, init);
      OnePassConfirmsOneEach(ConfirmRepeatedly(credits, references, init), references, passes[|passes| - 1]);
    }
  }

  /** What one successful webhook per reference leaves behind. */
  function ConfirmAllOf(credits: seq<Credit>, references: seq<string>): (result: seq<Credit>)
    ensures |result| == |credits|
  {
    if references == [] then credits
    else MarkAll(ConfirmAllOf(credits, references[..|references| - 1]), references[|references| - 1], Confirmed)
  }

  lemma {:induction false} ConfirmAllOfRow(credits: seq<Credit>, references: seq<string>, i: nat)
    requires i < |credits|
    ensures ConfirmAllOf(credits, references)[i]
            == if credits[i].reference in references then credits[i].(status := Confirmed) else credits[i]
  {
    if references != [] {
      var init, last := references[..|references| - 1], references[|references| - 1];
      ConfirmAllOfRow(credits, init, i);
      assert references == init + [last];
    }
  }

  lemma {:induction false} ReachedWhenNoneIsOpen(before: seq<Credit>, after: seq<Credit>, references: seq<string>)
    requires OnlyConfirms(before, after, references)
    ensures after == ConfirmAllOf(before, references) <==> forall r :: r in references ==> OpenCount(after, r) == 0
  {
    var goal := ConfirmAllOf(before, references);
    forall i | 0 <= i < |before|
      ensures goal[i] == if before[i].reference in references then before[i].(status := Confirmed) else before[i]
    {
      ConfirmAllOfRow(before, references, i);
    }
    if after == goal {
      forall r | r in references ensures OpenCount(after, r) == 0 {
        CountIsZeroExactly(after, OpenWith(r));
      }
    } else if forall r :: r in references ==> OpenCount(after, r) == 0 {
      forall i | 0 <= i < |before| ensures after[i] == goal[i] {
        CountIsZeroExactly(after, OpenWith(before[i].reference));
        if before[i].reference in references {
          assert !OpenWith(before[i].reference)(after[i]);
        }
      }
    }
  }

  /**
   * Passes of the cron reach the state that the webhooks would have left,
   * exactly when no reference has more open credits than there were passes.
   */
  lemma {:induction false} PassesReachTheWebhookState(credits: seq<Credit>, references: seq<string>, passes: seq<Hints>)
    requires Distinct(references)
    ensures ConfirmRepeatedly(credits, references, passes) == ConfirmAllOf(credits, references)
            <==> forall r :: r in references ==> OpenCount(credits, r) <= |passes|
  {
    PassesCountDown(credits, references, passes);
    ReachedWhenNoneIsOpen(credits, ConfirmRepeatedly(credits, references, passes), references);
  }
}
