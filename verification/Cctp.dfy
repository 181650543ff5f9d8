/** Circle's side of a burn, as far as a caller can see it: the per-message burn limit, the minimum-fee rule of
    `depositForBurnWithHook`, and the optional getter that reports that minimum. */
module Cctp {
  import opened Basics
  import opened Tokens
  import opened Settings
  import opened Layout

  const FINALITY_STANDARD: nat := 2000
  const FINALITY_FAST: nat := 1000
  const STELLAR_DOMAIN: nat := 27
  const PPM_DENOM: nat := 1_000_000
  const MIN_FEE_MULTIPLIER: nat := 10_000_000

  /** 2^232: a supply below which no fee product overflows `uint256`. */
  const SUPPLY_BOUND: nat := 0x100_0000_0000_0000_0000_0000_0000_0000_0000_0000_0000_0000_0000_0000_0000

  /** What a tolerant `staticcall` of the getter yields: a 32-byte word, or anything else. */
  datatype ProbeReply = NoReply | Word(value: nat)

  /** `burnLimit == 0` means burning is unsupported; `legacy` implementations have neither the minimum-fee check
      nor the getter; `forced` is a getter that answers something other than the rule says. */
  datatype Circle = Circle(burnLimit: nat, minFee: nat, legacy: bool, forced: Option<ProbeReply>)

  /** The minimum `maxFee` the burn itself enforces; `None` when `amount * minFee` overflows. */
  function MinFeeAmount(c: Circle, amount: nat): Option<nat> {
    if c.minFee == 0 then Some(0)
    else if amount * c.minFee > U256_MAX then None
    else
      var fee := amount * c.minFee / MIN_FEE_MULTIPLIER;
      Some(if fee == 0 then 1 else fee)
  }

  /** The public getter: absent when legacy, and refusing burns of at most one subunit under a minimum. */
  function Probe(c: Circle, amount: nat): ProbeReply {
    if c.legacy then NoReply
    else if c.forced.Some? then c.forced.value
    else if c.minFee == 0 then Word(0)
    else if amount <= 1 then NoReply
    else match MinFeeAmount(c, amount) case Some(fee) => Word(fee) case None => NoReply
  }

  /** The messenger's checks on a burn: within the limit, `maxFee` below the amount, and at least the minimum. */
  predicate AcceptsBurn(c: Circle, amount: nat, maxFee: nat) {
    && 0 < amount <= c.burnLimit
    && maxFee < amount
    && (c.legacy || (MinFeeAmount(c, amount).Some? && MinFeeAmount(c, amount).value <= maxFee))
  }

  datatype BurnMessage = BurnMessage(
    amount: nat, domain: nat, mintRecipient: nat, burnToken: Address, destinationCaller: nat,
    maxFee: nat, finality: nat, hookData: bytes)

  /** Solidity's `(a * rate + PPM_DENOM - 1) / PPM_DENOM`, reverting where an intermediate exceeds `uint256`. */
  function CheckedCeilPpm(a: nat, rate: nat): Option<nat> {
    if a * rate + PPM_DENOM > U256_MAX then None else Some((a * rate + PPM_DENOM - 1) / PPM_DENOM)
  }

  /** The allowance a settlement offers for burning `toBurn`: the larger of the owner's rate and the reported
      minimum, bounded by the cap, and kept below the amount. `None` when the arithmetic reverts. */
  function Allowance(toBurn: nat, rate: nat, cap: nat, reply: ProbeReply): Option<nat>
    requires toBurn > 0
  {
    var ownerFee := CheckedCeilPpm(toBurn, Min(rate, cap));
    var ceiling := CheckedCeilPpm(toBurn, cap);
    if ownerFee.None? || ceiling.None? then None
    else
      var chainMin := if reply.Word? then reply.value else 0;
      Some(Min(Min(Max(ownerFee.value, chainMin), ceiling.value), toBurn - 1))
  }

  /** Burning `toBurn` is possible at all within the 1 % cap: a property of Circle's side only. */
  predicate Payable(c: Circle, toBurn: nat) {
    && 0 < toBurn <= c.burnLimit
    && toBurn * MAX_CCTP_FEE_PPM + PPM_DENOM <= U256_MAX
    && (c.legacy || c.minFee == 0 ||
        (&& toBurn >= 2
         && toBurn * c.minFee <= U256_MAX
         && Max(1, toBurn * c.minFee / MIN_FEE_MULTIPLIER) <= CeilDiv(toBurn, 100)))
  }

  /** Circle's rules without division: within the limit, something left, and unless there is no minimum a `maxFee` of at
      least one that covers `minFee` ten-millionths of the amount, rounded down; the getter reports the least such fee. */
  lemma CircleRules(c: Circle, amount: nat, maxFee: nat)
    ensures AcceptsBurn(c, amount, maxFee) <==>
            && 1 <= amount <= c.burnLimit && maxFee < amount
            && (c.legacy || c.minFee == 0
                || (maxFee >= 1 && amount * c.minFee <= U256_MAX && amount * c.minFee < (maxFee + 1) * 10_000_000))
    ensures c.forced.None? && amount > 1 && Probe(c, amount) == Word(maxFee) ==>
              if c.minFee == 0 then maxFee == 0
              else maxFee >= 1 && amount * c.minFee < (maxFee + 1) * 10_000_000
                   && (maxFee == 1 || maxFee * 10_000_000 <= amount * c.minFee)
    ensures Probe(c, amount) == NoReply <==>
            || c.legacy
            || c.forced == Some(NoReply)
            || (c.forced.None? && c.minFee > 0 && (amount <= 1 || amount * c.minFee > U256_MAX))
  {
  }

  /** The cap in whole subunits is one percent, rounded up. */
  lemma CapIsOnePercent(n: nat)
    ensures (n * MAX_CCTP_FEE_PPM + PPM_DENOM - 1) / PPM_DENOM == CeilDiv(n, 100)
  {
    DivUnique(n * MAX_CCTP_FEE_PPM + PPM_DENOM - 1, PPM_DENOM, CeilDiv(n, 100));
  }

  lemma CeilPpmMono(n: nat, rate: nat, cap: nat)
    requires rate <= cap
    ensures n * rate <= n * cap
    ensures (n * rate + PPM_DENOM - 1) / PPM_DENOM <= (n * cap + PPM_DENOM - 1) / PPM_DENOM
  {
    MulMono(rate, cap, n);
  }

  /** The allowance is offered for exactly the amounts that do not overflow, whatever rate the owner set. */
  lemma AllowanceDefined(toBurn: nat, rate: nat, reply: ProbeReply)
    requires toBurn > 0
    ensures Allowance(toBurn, rate, MAX_CCTP_FEE_PPM, reply).Some? <==> toBurn * MAX_CCTP_FEE_PPM + PPM_DENOM <= U256_MAX
  {
    CeilPpmMono(toBurn, Min(rate, MAX_CCTP_FEE_PPM), MAX_CCTP_FEE_PPM);
  }

  /** For any answer of the getter at all, honest or not, the allowance stays below the amount and within 1 %. */
  lemma AllowanceBounded(toBurn: nat, rate: nat, reply: ProbeReply)
    requires toBurn > 0
    requires Allowance(toBurn, rate, MAX_CCTP_FEE_PPM, reply).Some?
    ensures Allowance(toBurn, rate, MAX_CCTP_FEE_PPM, reply).value < toBurn
    ensures Allowance(toBurn, rate, MAX_CCTP_FEE_PPM, reply).value <= CeilDiv(toBurn, 100)
  {
    CapIsOnePercent(toBurn);
  }

  /** What an owner's rate asks for a burn, in whole subunits. */
  function OwnerFee(toBurn: nat, rate: nat): nat {
    CeilDiv(toBurn * rate, PPM_DENOM)
  }

  /** The most any rate within the cap can offer. */
  function TopFee(toBurn: nat): nat
    requires toBurn > 0
  {
    Min(CeilDiv(toBurn, 100), toBurn - 1)
  }

  /** The minimum the getter reports, if any. */
  function ReportedMinimum(reply: ProbeReply): nat {
    if reply.Word? then reply.value else 0
  }

  /** The allowance in plain numbers: the capped rate's fee rounded up, raised to the reported minimum, cut off at one
      percent rounded up and below the amount; refused where a product with the rate or the cap would leave `uint256`. */
  lemma AllowanceIs(toBurn: nat, rate: nat, reply: ProbeReply)
    requires toBurn > 0
    ensures var r := if rate < 10_000 then rate else 10_000;
            var asked := (toBurn * r + 999_999) / 1_000_000;
            var raised := if reply.Word? && reply.value > asked then reply.value else asked;
            var ceiling := (toBurn * 10_000 + 999_999) / 1_000_000;
            var capped := if raised < ceiling then raised else ceiling;
            Allowance(toBurn, rate, MAX_CCTP_FEE_PPM, reply) ==
            if toBurn * 10_000 + 1_000_000 >= 0x1_0000_0000_0000_0000_0000_0000_0000_0000_0000_0000_0000_0000_0000_0000_0000_0000
            then None else Some(if capped < toBurn then capped else toBurn - 1)
  {
    AllowanceDefined(toBurn, rate, reply);
    CeilPpmMono(toBurn, Min(rate, MAX_CCTP_FEE_PPM), MAX_CCTP_FEE_PPM);
  }

  /** Two capped rates give one allowance exactly when they round to the same fee, neither exceeds the reported minimum,
      both reach the top, or the minimum does. */
  lemma AllowancesEqualIff(toBurn: nat, r1: nat, r2: nat, reply: ProbeReply)
    requires toBurn > 0 && r1 <= MAX_CCTP_FEE_PPM && r2 <= MAX_CCTP_FEE_PPM
    requires Allowance(toBurn, 0, MAX_CCTP_FEE_PPM, reply).Some?
    ensures Allowance(toBurn, r1, MAX_CCTP_FEE_PPM, reply) == Allowance(toBurn, r2, MAX_CCTP_FEE_PPM, reply)
            <==> var f1, f2, low, top := OwnerFee(toBurn, r1), OwnerFee(toBurn, r2), ReportedMinimum(reply), TopFee(toBurn);
                 f1 == f2 || Max(f1, f2) <= low || top <= Min(f1, f2) || top <= low
  {
    AllowanceClamps(toBurn, r1, reply);
    AllowanceClamps(toBurn, r2, reply);
    hide *;
  }

  /** They need not be one: at the two ends of the cap, a burn of a thousand subunits allows nothing, or ten. */
  lemma RatesMoveTheAllowance()
    ensures Allowance(1000, 0, MAX_CCTP_FEE_PPM, NoReply) == Some(0)
    ensures Allowance(1000, MAX_CCTP_FEE_PPM, MAX_CCTP_FEE_PPM, NoReply) == Some(10)
  {
    AllowanceDefined(1000, 0, NoReply);
  }

  /** The allowance is the owner's fee, raised to the reported minimum and cut off at the top. */
  lemma AllowanceClamps(toBurn: nat, rate: nat, reply: ProbeReply)
    requires toBurn > 0 && rate <= MAX_CCTP_FEE_PPM
    requires Allowance(toBurn, 0, MAX_CCTP_FEE_PPM, reply).Some?
    ensures Allowance(toBurn, rate, MAX_CCTP_FEE_PPM, reply)
            == Some(Min(Max(OwnerFee(toBurn, rate), ReportedMinimum(reply)), TopFee(toBurn)))
  {
    AllowanceDefined(toBurn, 0, reply);
    AllowanceDefined(toBurn, rate, reply);
    CapIsOnePercent(toBurn);
    CeilPpmMono(toBurn, rate, MAX_CCTP_FEE_PPM);
  }

  /** The messenger takes the offered allowance exactly when the burn is payable within the cap. Neither the
      owner's rate nor the standard/fast choice appears in the condition. */
  lemma AllowanceAcceptedIff(c: Circle, toBurn: nat, rate: nat)
    requires toBurn > 0
    requires c.forced.None?
    ensures (var m := Allowance(toBurn, rate, MAX_CCTP_FEE_PPM, Probe(c, toBurn)); m.Some? && AcceptsBurn(c, toBurn, m.value))
            <==> Payable(c, toBurn)
  {
    AllowanceDefined(toBurn, rate, Probe(c, toBurn));
    CapIsOnePercent(toBurn);
    CeilPpmMono(toBurn, Min(rate, MAX_CCTP_FEE_PPM), MAX_CCTP_FEE_PPM);
    assert toBurn >= 2 ==> CeilDiv(toBurn, 100) <= toBurn - 1;
  }

  /** A minimum fee of at most 1 % never stops a burn of two subunits or more. */
  lemma OnePercentMinimumIsPayable(c: Circle, toBurn: nat)
    requires 2 <= toBurn <= c.burnLimit
    requires toBurn < SUPPLY_BOUND
    requires c.legacy || c.minFee <= 100_000
    ensures Payable(c, toBurn)
  {
    if !c.legacy && c.minFee != 0 {
      MulMono(c.minFee, 100_000, toBurn);
    }
  }

  /** One subunit can never be burned under a minimum fee, whatever the allowance. */
  lemma OneSubunitNeverPayable(c: Circle, maxFee: nat)
    requires !c.legacy && c.minFee != 0
    ensures !AcceptsBurn(c, 1, maxFee)
  {
  }
}
