/**
 The outputs of a coinbase: how a job builds them from the payout list
 (src/models/MiningJob.ts), and how the two validators recompute and compare them
 (src/services/template-provider.service.ts, src/models/StratumV2Client.ts).
 Percentages are exact reals; the address-to-script map is any function.
 */
module CoinbaseOutputs {
  import opened Bytes

  datatype Payout = Payout(address: string, percent: Option<real>, amountSats: Option<int>)

  datatype Output = Output(value: int, script: bytes)

  type ScriptMap = string -> bytes

  function PercentOf(p: Payout): real
  {
    if p.percent.Some? then p.percent.value else 0.0
  }

  function Share(p: Payout, base: int): int
  {
    (PercentOf(p) / 100.0 * base as real).Floor
  }

  function Amount(p: Payout, base: int): int
  {
    if p.amountSats.Some? then p.amountSats.value else Share(p, base)
  }

  function Total(outs: seq<Output>): int
  {
    if outs == [] then 0 else outs[0].value + Total(outs[1..])
  }

  function Listed(script: ScriptMap, payouts: seq<Payout>, base: int): (outs: seq<Output>)
    ensures |outs| == |payouts|
  {
    if payouts == [] then []
    else [Output(Amount(payouts[0], base), script(payouts[0].address))] + Listed(script, payouts[1..], base)
  }

  function AddToFirst(outs: seq<Output>, sats: int): (r: seq<Output>)
    ensures |r| == |outs|
  {
    if outs == [] then [] else [outs[0].(value := outs[0].value + sats)] + outs[1..]
  }

  /** The list a coinbase of `reward` pays: every amount as asked, what is left (or
      missing) on the first. */
  function PayoutOutputs(script: ScriptMap, payouts: seq<Payout>, base: int, reward: int): (outs: seq<Output>)
    ensures |outs| == |payouts|
  {
    var listed := Listed(script, payouts, base);
    AddToFirst(listed, reward - Total(listed))
  }

  // ---- what the list pays ----

  lemma {:induction false} ListedAt(script: ScriptMap, payouts: seq<Payout>, base: int, i: nat)
    requires i < |payouts|
    ensures Listed(script, payouts, base)[i] == Output(Amount(payouts[i], base), script(payouts[i].address))
  {
    if i > 0 { ListedAt(script, payouts[1..], base, i - 1); }
  }

  lemma AddToFirstTotal(outs: seq<Output>, sats: int)
    requires outs != []
    ensures Total(AddToFirst(outs, sats)) == Total(outs) + sats
  {
    assert AddToFirst(outs, sats)[1..] == outs[1..];
  }

  /** Every satoshi of the reward is paid, and no more. */
  lemma OutputsSumToReward(script: ScriptMap, payouts: seq<Payout>, base: int, reward: int)
    requires payouts != []
    ensures Total(PayoutOutputs(script, payouts, base, reward)) == reward
  {
    var listed := Listed(script, payouts, base);
    AddToFirstTotal(listed, reward - Total(listed));
  }

  /** Output by output: the recipient's own script, the amount asked for, and the leftover
      on the first alone. */
  lemma OutputAt(script: ScriptMap, payouts: seq<Payout>, base: int, reward: int, i: nat)
    requires i < |payouts|
    ensures PayoutOutputs(script, payouts, base, reward)[i].script == script(payouts[i].address)
    ensures PayoutOutputs(script, payouts, base, reward)[i].value ==
            Amount(payouts[i], base) + (if i == 0 then reward - Total(Listed(script, payouts, base)) else 0)
  {
    ListedAt(script, payouts, base, i);
  }

  ghost predicate PaysAsListed(payouts: seq<Payout>, base: int, outs: seq<Output>)
  {
    |outs| == |payouts| && forall i :: 0 <= i < |payouts| ==> outs[i].value == Amount(payouts[i], base)
  }

  /** Everybody gets exactly the listed amount if and only if the amounts make up the
      whole reward. */
  lemma PaidAsListedIff(script: ScriptMap, payouts: seq<Payout>, base: int, reward: int)
    requires payouts != []
    ensures PaysAsListed(payouts, base, PayoutOutputs(script, payouts, base, reward))
            <==> Total(Listed(script, payouts, base)) == reward
  {
    forall i | 0 <= i < |payouts|
      ensures PayoutOutputs(script, payouts, base, reward)[i].value ==
              Amount(payouts[i], base) + (if i == 0 then reward - Total(Listed(script, payouts, base)) else 0)
    {
      OutputAt(script, payouts, base, reward, i);
    }
    if Total(Listed(script, payouts, base)) != reward {
      assert PayoutOutputs(script, payouts, base, reward)[0].value != Amount(payouts[0], base);
    }
  }

  function PercentTotal(payouts: seq<Payout>): real
  {
    if payouts == [] then 0.0 else PercentOf(payouts[0]) + PercentTotal(payouts[1..])
  }

  ghost predicate ByPercent(payouts: seq<Payout>)
  {
    forall p :: p in payouts ==> p.amountSats.None? && PercentOf(p) >= 0.0
  }

  function ExactShare(percent: real, base: nat): real { percent / 100.0 * base as real }

  lemma ExactSharesAdd(a: real, b: real, base: nat)
    ensures ExactShare(a + b, base) == ExactShare(a, base) + ExactShare(b, base)
  {
    var p, q, r := a / 100.0, b / 100.0, base as real;
    assert (a + b) / 100.0 == p + q;
    assert (p + q) * r == p * r + q * r;
  }

  lemma ExactShareNonNegative(a: real, base: nat)
    requires a >= 0.0
    ensures ExactShare(a, base) >= 0.0
  {
    assert a / 100.0 >= 0.0;
  }

  /** Rounding down loses less than one satoshi a recipient, and never makes an amount
      negative. */
  lemma {:induction false} PercentsRoundDown(script: ScriptMap, payouts: seq<Payout>, base: nat)
    requires ByPercent(payouts)
    ensures Total(Listed(script, payouts, base)) as real <= ExactShare(PercentTotal(payouts), base)
    ensures payouts != [] ==>
      ExactShare(PercentTotal(payouts), base) < (Total(Listed(script, payouts, base)) + |payouts|) as real
    ensures forall i :: 0 <= i < |payouts| ==> Listed(script, payouts, base)[i].value >= 0
  {
    if payouts == [] {
      ExactSharesAdd(0.0, 0.0, base);
    } else {
      var rest := payouts[1..];
      PercentsRoundDown(script, rest, base);
      ExactSharesAdd(PercentOf(payouts[0]), PercentTotal(rest), base);
      ExactShareNonNegative(PercentOf(payouts[0]), base);
      assert Listed(script, payouts, base)[1..] == Listed(script, rest, base);
      if rest == [] {
        ExactSharesAdd(0.0, 0.0, base);
      }
    }
  }

  /** A list of percentages adding up to 100 leaves the first recipient fewer extra
      satoshis than there are recipients, and pays nobody a negative amount. */
  lemma HundredPercent(script: ScriptMap, payouts: seq<Payout>, reward: nat)
    requires payouts != [] && ByPercent(payouts) && PercentTotal(payouts) == 100.0
    ensures 0 <= reward - Total(Listed(script, payouts, reward)) < |payouts|
    ensures forall i :: 0 <= i < |payouts| ==> PayoutOutputs(script, payouts, reward, reward)[i].value >= 0
  {
    PercentsRoundDown(script, payouts, reward);
    assert ExactShare(100.0, reward) == reward as real;
    forall i | 0 <= i < |payouts|
      ensures PayoutOutputs(script, payouts, reward, reward)[i].value >= 0
    {
      OutputAt(script, payouts, reward, reward, i);
      ListedAt(script, payouts, reward, i);
    }
  }

  // ---- the validators ----

  const COMMITMENT_HEADER: bytes := [0xaa, 0x21, 0xa9, 0xed]
  const OP_RETURN: byte := 0x6a
  const COMMITMENT_LENGTH := 38

  predicate IsWitnessCommitment(script: bytes)
  {
    |script| == COMMITMENT_LENGTH && script[0] == OP_RETURN && script[1] == 0x24 && script[2..6] == COMMITMENT_HEADER
  }

  /** A commitment is recognised by its 38 octets, the first six of which are fixed; the one a
      job appends is one. */
  lemma CommitmentIff(script: bytes)
    ensures IsWitnessCommitment(script)
      <==> exists root :: |root| == 32 && script == [0x6a, 0x24, 0xaa, 0x21, 0xa9, 0xed] + root
  {
    if |script| == 38 {
      assert script == script[..6] + script[6..];
      assert script[..6] == [script[0], script[1]] + script[2..6];
    }
    if IsWitnessCommitment(script) {
      assert script[..6] == [0x6a, 0x24, 0xaa, 0x21, 0xa9, 0xed];
    }
  }

  lemma OwnCommitmentIs(root: bytes)
    requires |root| == 32
    ensures CommitmentOutput(root).value == 0 && IsWitnessCommitment(CommitmentOutput(root).script)
  {
  }

  /** What a recipient is listed with: the satoshis named, or else the whole satoshis in the
      percentage named, none naming nothing. */
  lemma AmountIs(p: Payout, base: nat)
    ensures p.amountSats.Some? ==> Amount(p, base) == p.amountSats.value
    ensures p.amountSats.None? && p.percent.Some? ==>
      Amount(p, base) as real <= p.percent.value * base as real / 100.0 < Amount(p, base) as real + 1.0
    ensures p.amountSats.None? && p.percent.None? ==> Amount(p, base) == 0
  {
    if p.percent.Some? {
      assert p.percent.value / 100.0 * base as real == p.percent.value * base as real / 100.0;
    }
  }

  predicate Compared(out: Output)
  {
    !IsWitnessCommitment(out.script) && out.value != 0
  }

  /** The outputs a validator looks at. */
  function Submitted(outs: seq<Output>): (r: seq<Output>)
    ensures |r| <= |outs|
  {
    if outs == [] then []
    else Keep(outs[0], Submitted(outs[1..]))
  }

  function CommitmentOutput(witnessRoot: bytes): Output
  {
    Output(0, [OP_RETURN, 0x24] + COMMITMENT_HEADER + witnessRoot)
  }

  lemma {:induction false} SubmittedKeepsAll(outs: seq<Output>)
    ensures Submitted(outs) == outs <==> forall o :: o in outs ==> Compared(o)
  {
    if outs != [] {
      SubmittedKeepsAll(outs[1..]);
      assert forall o :: o in outs <==> o == outs[0] || o in outs[1..];
      if Compared(outs[0]) {
        assert Submitted(outs)[1..] == Submitted(outs[1..]);
      }
    }
  }

  function Keep(o: Output, rest: seq<Output>): seq<Output>
  {
    if Compared(o) then [o] + rest else rest
  }

  lemma KeepJoin(o: Output, a: seq<Output>, b: seq<Output>)
    ensures Keep(o, a + b) == Keep(o, a) + b
  {
    assert [o] + (a + b) == [o] + a + b;
  }

  lemma {:induction false} SubmittedOfJoin(a: seq<Output>, b: seq<Output>)
    ensures Submitted(a + b) == Submitted(a) + Submitted(b)
  {
    if a == [] {
      assert a + b == b;
    } else {
      var whole := a + b;
      assert whole[0] == a[0] && whole[1..] == a[1..] + b;
      assert Submitted(whole) == Keep(a[0], Submitted(a[1..] + b));
      SubmittedOfJoin(a[1..], b);
      KeepJoin(a[0], Submitted(a[1..]), Submitted(b));
    }
  }

  /** What a validated coinbase must satisfy. */
  ghost predicate MatchesPayouts(script: ScriptMap, payouts: seq<Payout>, coinbaseValue: nat, txOuts: seq<Output>)
  {
    Submitted(txOuts) == PayoutOutputs(script, payouts, coinbaseValue, coinbaseValue)
  }

  /** The pool's own coinbase, payouts and then the commitment, passes validation if and
      only if no payout is zero and no recipient's script looks like a commitment. */
  lemma OwnCoinbasePasses(script: ScriptMap, payouts: seq<Payout>, coinbaseValue: nat, witnessRoot: bytes)
    ensures
      var outs := PayoutOutputs(script, payouts, coinbaseValue, coinbaseValue);
      MatchesPayouts(script, payouts, coinbaseValue, outs + [CommitmentOutput(witnessRoot)])
      <==> forall o :: o in outs ==> Compared(o)
  {
    var outs := PayoutOutputs(script, payouts, coinbaseValue, coinbaseValue);
    SubmittedOfJoin(outs, [CommitmentOutput(witnessRoot)]);
    assert Submitted([CommitmentOutput(witnessRoot)]) == [];
    SubmittedKeepsAll(outs);
  }

  /** The list for a template without payouts, one address taking it all: its coinbase
      passes if and only if there is something to take and the script is no commitment. */
  lemma FallbackPassesIff(script: ScriptMap, address: string, coinbaseValue: nat, witnessRoot: bytes)
    ensures
      var payouts := [Payout(address, Some(100.0), None)];
      var outs := PayoutOutputs(script, payouts, coinbaseValue, coinbaseValue);
      && outs == [Output(coinbaseValue, script(address))]
      && (MatchesPayouts(script, payouts, coinbaseValue, outs + [CommitmentOutput(witnessRoot)])
          <==> coinbaseValue > 0 && !IsWitnessCommitment(script(address)))
  {
    var payouts := [Payout(address, Some(100.0), None)];
    var outs := PayoutOutputs(script, payouts, coinbaseValue, coinbaseValue);
    OutputAt(script, payouts, coinbaseValue, coinbaseValue, 0);
    OutputsSumToReward(script, payouts, coinbaseValue, coinbaseValue);
    assert outs == [outs[0]] && outs[1..] == [];
    assert Total(outs) == outs[0].value;
    OwnCoinbasePasses(script, payouts, coinbaseValue, witnessRoot);
    assert outs[0] in outs;
  }

  function Ignored(outs: seq<Output>): seq<Output>
  {
    if outs == [] then []
    else if IsWitnessCommitment(outs[0].script) && outs[0].value != 0 then [outs[0]] + Ignored(outs[1..])
    else Ignored(outs[1..])
  }

  lemma {:induction false} SubmittedTotal(outs: seq<Output>)
    ensures Total(outs) == Total(Submitted(outs)) + Total(Ignored(outs))
  {
    if outs != [] {
      SubmittedTotal(outs[1..]);
      var s, g := Submitted(outs), Ignored(outs);
      if Compared(outs[0]) {
        assert s[1..] == Submitted(outs[1..]);
      }
      if IsWitnessCommitment(outs[0].script) && outs[0].value != 0 {
        assert g[1..] == Ignored(outs[1..]);
      }
    }
  }

  /** A coinbase accepted by a validator spends exactly the coinbase value, over and above
      what it attaches to commitment outputs. */
  lemma AcceptedSpendsReward(script: ScriptMap, payouts: seq<Payout>, coinbaseValue: nat, txOuts: seq<Output>)
    requires payouts != [] && MatchesPayouts(script, payouts, coinbaseValue, txOuts)
    ensures Total(txOuts) == coinbaseValue + Total(Ignored(txOuts))
  {
    SubmittedTotal(txOuts);
    OutputsSumToReward(script, payouts, coinbaseValue, coinbaseValue);
  }

  // ---- the loops ----

  lemma {:induction false} ListedAppend(script: ScriptMap, payouts: seq<Payout>, p: Payout, base: int)
    ensures Listed(script, payouts + [p], base)
        == Listed(script, payouts, base) + [Output(Amount(p, base), script(p.address))]
  {
    if payouts == [] {
      assert payouts + [p] == [p];
    } else {
      assert (payouts + [p])[1..] == payouts[1..] + [p];
      ListedAppend(script, payouts[1..], p, base);
    }
  }

  lemma {:induction false} TotalAppend(outs: seq<Output>, o: Output)
    ensures Total(outs + [o]) == Total(outs) + o.value
  {
    if outs == [] {
      assert outs + [o] == [o];
    } else {
      assert (outs + [o])[1..] == outs[1..] + [o];
      TotalAppend(outs[1..], o);
    }
  }

  lemma ListedStep(script: ScriptMap, payouts: seq<Payout>, base: int, i: nat)
    requires i < |payouts|
    ensures Listed(script, payouts[..i + 1], base) ==
      Listed(script, payouts[..i], base) + [Output(Amount(payouts[i], base), script(payouts[i].address))]
    ensures Total(Listed(script, payouts[..i + 1], base))
        == Total(Listed(script, payouts[..i], base)) + Amount(payouts[i], base)
  {
    assert payouts[..i + 1] == payouts[..i] + [payouts[i]];
    ListedAppend(script, payouts[..i], payouts[i], base);
    TotalAppend(Listed(script, payouts[..i], base), Output(Amount(payouts[i], base), script(payouts[i].address)));
  }

  /** Walk the recipients, keeping the balance still to pay. */
  method ListOutputs(script: ScriptMap, payouts: seq<Payout>, base: int, reward: int)
    returns (outs: seq<Output>, rewardBalance: int)
    ensures outs == Listed(script, payouts, base)
    ensures rewardBalance == reward - Total(outs)
  {
    outs, rewardBalance := [], reward;
    for i := 0 to |payouts|
      invariant outs == Listed(script, payouts[..i], base)
      invariant rewardBalance == reward - Total(outs)
    {
      var amount := if payouts[i].amountSats.None? then Share(payouts[i], base) else payouts[i].amountSats.value;
      rewardBalance := rewardBalance - amount;
      ListedStep(script, payouts, base, i);
      outs := outs + [Output(amount, script(payouts[i].address))];
    }
    assert payouts[..|payouts|] == payouts;
  }

  /** A job's coinbase; with nobody to pay, `createCoinbaseTransaction` fails on `outs[0]`. */
  method CreateCoinbaseTransaction(script: ScriptMap, addresses: seq<Payout>, reward: int) returns (outs: seq<Output>)
    requires addresses != []
    ensures outs == PayoutOutputs(script, addresses, reward, reward)
  {
    var rewardBalance;
    outs, rewardBalance := ListOutputs(script, addresses, reward, reward);
    outs := [outs[0].(value := outs[0].value + rewardBalance)] + outs[1..];
  }

  method BuildCoinbasePayoutOutputs(script: ScriptMap, payouts: seq<Payout>, coinbaseValue: int)
    returns (outs: seq<Output>)
    ensures coinbaseValue >= 0 ==> outs == PayoutOutputs(script, payouts, coinbaseValue, coinbaseValue)
    ensures coinbaseValue < 0 ==> outs == PayoutOutputs(script, payouts, 0, 0)
  {
    var rewardValue := if coinbaseValue < 0 then 0 else coinbaseValue;
    var rewardBalance;
    outs, rewardBalance := ListOutputs(script, payouts, rewardValue, rewardValue);
    if |outs| > 0 && rewardBalance != 0 {
      outs := [outs[0].(value := outs[0].value + rewardBalance)] + outs[1..];
    } else if |outs| > 0 {
      assert outs == [outs[0].(value := outs[0].value + 0)] + outs[1..];
    }
  }

  /** The connection's own copy: percentages of the unclamped value. */
  method BuildExpectedPayoutOutputs(script: ScriptMap, payouts: seq<Payout>, coinbaseValue: int)
    returns (outs: seq<Output>)
    ensures coinbaseValue >= 0 ==> outs == PayoutOutputs(script, payouts, coinbaseValue, coinbaseValue)
    ensures coinbaseValue < 0 ==> outs == PayoutOutputs(script, payouts, coinbaseValue, 0)
  {
    var rewardBalance := if coinbaseValue < 0 then 0 else coinbaseValue;
    outs, rewardBalance := ListOutputs(script, payouts, coinbaseValue, rewardBalance);
    if |outs| > 0 && rewardBalance != 0 {
      outs := [outs[0].(value := outs[0].value + rewardBalance)] + outs[1..];
    } else if |outs| > 0 {
      assert outs == [outs[0].(value := outs[0].value + 0)] + outs[1..];
    }
  }

  lemma {:induction false} SubmittedAppend(outs: seq<Output>, o: Output)
    ensures Submitted(outs + [o]) == Submitted(outs) + (if Compared(o) then [o] else [])
  {
    SubmittedOfJoin(outs, [o]);
  }

  method FilterSubmitted(txOuts: seq<Output>) returns (submitted: seq<Output>)
    ensures submitted == Submitted(txOuts)
  {
    submitted := [];
    for i := 0 to |txOuts|
      invariant submitted == Submitted(txOuts[..i])
    {
      assert txOuts[..i + 1] == txOuts[..i] + [txOuts[i]];
      SubmittedAppend(txOuts[..i], txOuts[i]);
      if !IsWitnessCommitment(txOuts[i].script) && txOuts[i].value != 0 {
        submitted := submitted + [txOuts[i]];
      }
    }
    assert txOuts[..|txOuts|] == txOuts;
  }

  datatype Verdict =
    | Valid
    | MissingExpectedPayouts
    | CountMismatch(expected: nat, submitted: nat)
    | OutputMismatch(position: nat)

  method CompareOutputs(expected: seq<Output>, submitted: seq<Output>) returns (v: Verdict)
    ensures v.Valid? <==> submitted == expected
    ensures !v.MissingExpectedPayouts?
    ensures v.CountMismatch? ==> |expected| != |submitted| && v == CountMismatch(|expected|, |submitted|)
    ensures v.OutputMismatch? ==> v.position < |expected| == |submitted|
    ensures v.OutputMismatch? ==> expected[v.position] != submitted[v.position]
    ensures v.OutputMismatch? ==> expected[..v.position] == submitted[..v.position]
  {
    if |submitted| != |expected| {
      return CountMismatch(|expected|, |submitted|);
    }
    for i := 0 to |expected|
      invariant expected[..i] == submitted[..i]
    {
      if expected[i].value != submitted[i].value || expected[i].script != submitted[i].script {
        return OutputMismatch(i);
      }
    }
    assert expected[..|expected|] == expected && submitted[..|submitted|] == submitted;
    v := Valid;
  }

  method ValidateCoinbaseTransactionPayoutOutputs(
      script: ScriptMap, payouts: seq<Payout>, coinbaseValue: nat, txOuts: seq<Output>)
    returns (v: Verdict)
    ensures v.Valid? <==> payouts != [] && MatchesPayouts(script, payouts, coinbaseValue, txOuts)
    ensures v.MissingExpectedPayouts? <==> payouts == []
  {
    var expected := BuildCoinbasePayoutOutputs(script, payouts, coinbaseValue);
    if |expected| == 0 {
      return MissingExpectedPayouts;
    }
    var submitted := FilterSubmitted(txOuts);
    v := CompareOutputs(expected, submitted);
  }

  /** The connection's validator, which has no case of its own for an empty list. */
  method ValidateCoinbasePayoutOutputs(script: ScriptMap, payouts: seq<Payout>, coinbaseValue: nat, txOuts: seq<Output>)
    returns (v: Verdict)
    ensures v.Valid? <==> MatchesPayouts(script, payouts, coinbaseValue, txOuts)
  {
    var expected := BuildExpectedPayoutOutputs(script, payouts, coinbaseValue);
    var submitted := FilterSubmitted(txOuts);
    v := CompareOutputs(expected, submitted);
  }
}
