# Cross Mesh ingress: a Dafny model

This project models the three parts of the Cross Mesh ingress contracts that move or locate money, and proves what their
documentation promises about them.

**EVM settlement** (`src/DepositForwarder.sol`, `src/Config.sol`, `src/DepositFactory.sol`). `Config.dfy`, `Forwarder.dfy` and
`DepositFactory.dfy` hold the contracts as classes whose methods follow the Solidity statement by statement, including the
rollback of a revert at any depth. Each is proved against the functions of `Settlement.dfy` (and `Settings.Permitted` /
`Settings.Updated`). `Runs.dfy` then lets any number of clones, callers, owner calls, Circle-side changes, rescues, deposits
and waits interleave without limit, and `Accounts.dfy`, `Guarantees.dfy` and `Rescue.dfy` prove the depositor's and the
operator's guarantees about every such run: fee-free money waited an hour, an armed window only draws down and ends only once its
snapshot is settled, nothing leaks, fees are capped, every burn goes to the committed recipient, no owner setting reaches an armed
rescue but through the `maxFee` it allows Circle (at most one percent), and anyone can empty an address within fourteen days,
or sweep what is left of a snapshot after its deadline whatever everyone else does. `Tokens.dfy` covers both ordinary chains and
chains whose native coin is USDC.

**Soroban delivery** (`stellar/contracts`). `Vault.dfy`, `Filler.dfy` and `VaultFactory.dfy` model vault, Aquarius adapter and
factory; the filler and the router are arbitrary functions on ledgers, limited only by what the host refuses (re-entering or
taking tokens from a caller on its stack, balances outside `i128`). `Delivery.dfy` runs vaults and factory against arbitrary
admins, relayers, oracles and strangers; a filler's turn there is itself a run, of any calls at all, further swaps and
withdrawals included, and the results hold for every call at every depth: who is paid, at what price and on whose terms, and
that all a vault loses over a run is accounted for.

**Addresses and checksums** (`verify-sdk/src`). `Derivation.dfy` proves the SDK's buffer building equal to the byte strings the
contracts hash, and those injective; `Crc.dfy` and `Bursts.dfy` prove what the strkey checksum loop detects, byte by byte and bit by
bit. `Layout.dfy` holds the layouts both sides share.

Conventions. A revert, panic or host trap is `None`, `false` or an error value, and leaves all state unchanged. Solidity and
`i128` overflow checks are written out; liveness results ask for amounts below 2^232 (EVM) or 2^125 (Soroban) so that none
bites. EVM addresses are numbers, 0 being `address(0)`; Soroban addresses are accounts or contracts. `Runs.Universe.sites` says
what each deposit address commits to, which is a function of the address because the derivation is collision-free;
`Derivation.AddressCommits` states that without assuming it, by exhibiting a collision otherwise. On the Soroban side nothing is
assumed of the hash but its length: a vault's address is the hash of its preimage, and each statement that rests on it says
"or these two inputs collide". Authorization is a set of verified signers. What the environment cannot do is collected in
`Runs.Possible` (nobody signs for a deposit address; the Config is wired to the real USDC, as a verified `init` is); what the
Soroban host refuses is refused by `Delivery.Step` itself (tokens at an address that runs vault code, or no code yet, move only
through a vault's own functions; only the factory deploys under its own address; nothing on the stack is called again).

Three statements one might expect are false as they stand, and are given with their exact condition:

- "A vault swap debits exactly `amount` USDC." True of a filler exactly when there is no vault call on which it delivers and hands
  some USDC back: `Vaults.DebitsExactlyIff`; so of every filler that never raises its recipient's balance of what it is paid in
  (`Vaults.NeverRefundsDebitsExactly`), and through the adapter exactly when the router does not (`Fillers.AdapterDebitsExactlyIff`).
  On every network there is a swap, of tokens that exist, that debits less: `Vaults.RefundingFillerIsPossible`.
- "The adapter ends a swap with the XLM it began with." True unless the strkey it pays names the adapter
  (`Fillers.AdapterKeepsNothing`), and false then: `Fillers.AdapterCanBeTheOwner`.
- "No owner setting affects an armed rescue." The standard CCTP rate sets the `maxFee` of the sweep's burn and nothing else:
  `Guarantees.SweepIgnoresSettings`; `Guarantees.SweepMaxFee` says exactly when two rates give one `maxFee`, and
  `Guarantees.RatesMoveTheMaxFee` has two Configs under which one window sweeps with different ones.

Every computation is also stated apart from the function that makes it: by what each entry point does to every balance and
field, with the contracts' constants written out (`Settlement.FlushDoes`, `Settings.RatesAfterACall`, `Vaults.SwapIff`), by a reader of
the bytes it writes (`Derivation.AbiDecodes`, `Derivation.InitCodeDeploys`), or by a published value (`Crc16.CheckValue`). What the environment does in a run, and what the tallies count, is spelled out likewise in
`Runs.EnvironmentMoves`, `Runs.NativeMoves`, `Accounts.WhatIsCounted`, `Delivery.OthersAct` and `Delivery.NineTenthsIs`.

One assumption is named where it is used: `Vaults.SelfOwned`, an owner strkey that names the very vault derived from it. Exactly
then does a swap leave XLM in the vault (`Vaults.SwapEmptiesXlmIff`). It is a fixed point of the hash, and no such strkey is known.

## Model

| member | source | states |
|---|---|---|
| Settings.CapsHoldAlways | src/Config.sol:31-36 | after any calls by anyone, every fee, rate and delay is within its cap and the delay at or above one hour |
| Settings.WiringIsForever | src/Config.sol:126-141 | once initialised, no calls change the USDC path |
| Settings.ApplyKeeps | src/Config.sol:126-240 | each call keeps the caps, and the wiring changes only by an `init` that supplies it |
| Settings.RatesAfterACall | src/Config.sol:145-243 | each fee, rate and the delay after a call: the call's value exactly if it is the owner's call for that very setting within its bound, else unchanged |
| Settings.SwitchesAfterACall | src/Config.sol:203-290 | the same for both switches, collector, sink, factory (wired back, or zero) and each operator |
| Settings.OwnerAndWiringAfterACall | src/Config.sol:126-312 | the same for owner, pending owner and wiring |
| Settings.AdmittedIff | src/Config.sol:126-312 | which calls are let through, by whom and with what values |
| Settings.FreshSettings | src/Config.sol:103-111 | what every setting is before any call |
| Settings.Config.constructor | src/Config.sol:103-111 | starts with no fees, unwired, and the delay already at its floor |
| Settings.Config.Init | src/Config.sol:126-141 | goes through exactly for the owner, once, with every sanity check met; wires exactly those addresses |
| Cctp.AllowanceAcceptedIff | src/DepositForwarder.sol:160-202 | with an honest getter the messenger takes the allowance iff the burn is payable within the 1 % cap, whatever the owner's rate, overflow included |
| Cctp.AllowanceBounded | src/DepositForwarder.sol:160-184 | for any getter answer the allowance is below the amount and within 1 % rounded up |
| Cctp.AllowancesEqualIff | src/DepositForwarder.sol:160-184 | two capped rates offer one allowance exactly when they round to one fee, neither exceeds the reported minimum, both reach the top, or the minimum does |
| Cctp.RatesMoveTheAllowance | src/DepositForwarder.sol:160-184 | two capped rates that offer different allowances for one burn |
| Cctp.OnePercentMinimumIsPayable | src/interfaces.sol:63-71 | a minimum fee up to 1 % stops no burn of two subunits or more |
| Cctp.OneSubunitNeverPayable | src/DepositForwarder.sol:40-48 | one subunit is never burnable under a minimum fee, whatever the allowance |
| Cctp.AllowanceIs | src/DepositForwarder.sol:160-184 | the allowance in plain numbers: the rate capped at 10_000 ppm, rounded up, raised to the reported minimum, cut off at 1 % rounded up and below the amount; none on overflow |
| Cctp.CircleRules | src/interfaces.sol:63-71 | the burn's acceptance and the getter's answer without division: `minFee` ten-millionths rounded down, at least one, absent where legacy, too small or overflowing |
| Settlement.SettleEffect | src/DepositForwarder.sol:382-445 | a settlement's event adds up, fees are within caps, and balances move by exactly the amount from the clone and the fees to the collector, who is not the clone |
| Settlement.ClampsAreIdentities | src/DepositForwarder.sol:432-436 | on every reachable Config the forwarder's clamps change nothing |
| Settlement.SweepSucceedsIff | src/DepositForwarder.sol:284-307 | exactly when a sweep goes through; no owner setting occurs in the condition |
| Settlement.FlushSucceedsIff | src/DepositForwarder.sol:218-225 | exactly when a flush goes through: caller admitted, fees below the amount, a collector that is neither zero nor the clone, the rest payable |
| Settlement.FlushDoes | src/DepositForwarder.sol:218-246 | all a flush does: min(balance, limit) settled, both fees, burn of the rest to domain 27 at finality 1000 exactly if the address is committed to fast and fast is enabled, else 2000, at that speed's rate; window and every balance after |
| Settlement.SweepDoes | src/DepositForwarder.sol:284-307 | all a sweep does: min(balance, budget, limit), no fees, finality 2000, the standard rate; window and every balance after |
| Settlement.RequestSweepDoes | src/DepositForwarder.sol:254-266 | all arming does: deadline now plus the configured delay, budget the balance; when it is refused or changes nothing |
| Settlement.RescueNativeDoes | src/DepositForwarder.sol:318-341 | who may, when it goes through on either kind of chain, and that all native coin moves to the sink |
| Settlement.RescueErc20Does | src/DepositForwarder.sol:354-364 | who may, for which tokens, and that the whole balance of that token and nothing else moves |
| Forwarders.Forwarder.constructor | src/DepositForwarder.sol:57-64 | a clone starts unarmed with no setup fee paid |
| Forwarders.Forwarder.CctpMinFee | src/DepositForwarder.sol:194-202 | a failed or malformed answer counts as no minimum |
| Forwarders.Forwarder.CctpParams | src/DepositForwarder.sol:160-184 | the step-by-step computation yields the specified allowance and finality, and fails exactly on overflow |
| Forwarders.Forwarder.BurnViaCctp | src/DepositForwarder.sol:407-416 | debits and logs exactly the specified burn, or fails |
| Forwarders.Forwarder.CollectFees | src/DepositForwarder.sol:432-445 | charges exactly the specified fees to a collector that is neither zero nor the clone, and marks the setup fee paid |
| Forwarders.Forwarder.DoSettle | src/DepositForwarder.sol:382-403 | succeeds exactly when specified, leaving the specified ledger, burn and event |
| Forwarders.Forwarder.Flush | src/DepositForwarder.sol:218-246 | does what `Settlement.Flush` says, or leaves clone and chain exactly as they were |
| Forwarders.Forwarder.RequestSweep | src/DepositForwarder.sol:254-266 | arms over the present balance, is idempotent while armed, or changes nothing |
| Forwarders.Forwarder.Sweep | src/DepositForwarder.sol:284-307 | does what `Settlement.Sweep` says, by the same draw-down rule as a flush, or leaves everything as it was |
| Forwarders.Forwarder.RescueNative | src/DepositForwarder.sol:318-341 | moves all native coin to the sink unless that lowers the USDC balance, then nothing |
| Forwarders.Forwarder.RescueErc20 | src/DepositForwarder.sol:354-364 | moves a whole token balance to the sink; USDC only off the implementation |
| Accounts.SweepIsCovered | src/DepositForwarder.sol:289-296 | a sweep keeps fee-free totals below what had arrived an hour before, because the arming snapshot bounds it |
| Accounts.Settling | src/DepositForwarder.sol:231-245 | a flush or sweep keeps the account invariant: conservation, window, timing, fee bounds |
| Accounts.Arming | src/DepositForwarder.sol:254-266 | arming keeps the account invariant |
| Runs.StepSound | src/DepositForwarder.sol:218-445 | every possible step by anyone keeps the invariant of every deposit address at once |
| Runs.ReachableSound | src/DepositForwarder.sol:218-445 | every reachable world satisfies it |
| Runs.NativeRescueKeepsUsdc | src/DepositForwarder.sol:309-341 | a native rescue lowers no address's USDC, even where the native coin is USDC |
| Runs.TokenRescueKeepsUsdc | src/DepositForwarder.sol:343-364 | a token rescue lowers no deposit address's USDC |
| Runs.RescuesMove | src/DepositForwarder.sol:309-364 | in any world a rescue moves what it may to the sink, and what arrives there as USDC is on record |
| Guarantees.FeeFreeOnlyAfterAnHour | src/DepositForwarder.sol:254-307 | in every run, what was swept by `t` had arrived by `t` minus one hour |
| Guarantees.ArmedWindowIsBurnable | src/DepositForwarder.sol:40-48 | in every reachable world an armed window holds 2 to balance, a closed one nothing |
| Guarantees.BudgetIsSnapshotLessSettled | src/DepositForwarder.sol:231-266 | while a window stays open its budget is the arming balance less all settled since, and its deadline the arming time plus the delay in force then, one hour to seven days |
| Guarantees.OpenWindowOnlyDrawsDown | src/DepositForwarder.sol:231-245 | over any stretch of a run with the window open, the budget falls by exactly what is settled and the deadline does not move |
| Guarantees.NothingLeaks | src/DepositForwarder.sol:382-445 | in every run, arrivals equal balance plus burned plus fees, per deposit address |
| Guarantees.BurnsGoToTheCommittedRecipient | src/DepositForwarder.sol:398-457 | in every run, each burn's hook data decodes to the clone's committed recipient, over the wired route to domain 27, for settled less fees, at finality 1000 or 2000 as its event says, fast only for an address committed to fast and never in a sweep |
| Guarantees.FlushesAsCommitted | src/DepositForwarder.sol:218-416 | at any point of any run a flush leaves exactly the event and the burn that the balance, the fees in force, the committed recipient, the committed speed and the fast switch give |
| Guarantees.FeesAreCapped | src/DepositForwarder.sol:418-445 | in every run, at most one setup fee and fees at most 100 + 100 per flush USDC + 1 % of what was flushed |
| Guarantees.OnlySettlementLowers | src/DepositForwarder.sol:204-307 | a step lowers a clone's USDC only by settling it, by exactly min(balance, limit), for a sweep also capped by the budget |
| Guarantees.SweepIgnoresSettings | src/DepositForwarder.sol:284-307 | under any two Configs with the same wiring a sweep succeeds in both or neither, with the same ledger, window, event and message but for `maxFee` |
| Guarantees.SweepMaxFee | src/DepositForwarder.sol:160-184 | that `maxFee` lies between Circle's minimum and 1 % rounded up, and is the same under both exactly when the two standard rates round alike, fall below the minimum, or reach the top |
| Guarantees.RatesMoveTheMaxFee | src/DepositForwarder.sol:160-184 | two capped Configs, wired alike, under which one window of 1000 subunits sweeps with `maxFee` 0 and 10 |
| Guarantees.WindowClosesIff | src/DepositForwarder.sol:231-306 | a window ends exactly when a flush or sweep of its own clone leaves less than 2 of its budget; nothing else closes it |
| Guarantees.ClosingSettlesTheSnapshot | src/DepositForwarder.sol:226-306 | from an arming over S to the first closing, at least S-1 was settled |
| Guarantees.OpenOrSettled | src/DepositForwarder.sol:226-306 | after an arming over S, in any run, the window is open still or at least S-1 has been settled |
| Rescue.SweepWorks | src/DepositForwarder.sol:284-307 | an open window can always be swept when Circle can burn, by anyone, fee-free |
| Rescue.DrainTakes | src/DepositForwarder.sol:268-307 | ceil((C-1)/L) sweeps drain a window armed at C, burning C, or C-1 when C mod L is 1, and close it |
| Rescue.DrainTakesNoFewer | src/DepositForwarder.sol:268-307 | until the last of them the window is still open |
| Rescue.BoundedSelfRescue | src/DepositForwarder.sol:254-307 | the permissionless schedule leaves at most one subunit within 14 days, 7 if nothing was armed, all else burned without fees |
| Rescue.SelfRescueFromAnyRun | src/DepositForwarder.sol:254-307 | the same after any run, all of what left burned without fees to the committed recipient |
| Rescue.RescueUnderInterference | src/DepositForwarder.sol:254-307 | after an arming over S and any run past its deadline, at least S-1 has been settled or a sweep by anyone succeeds there and then, fee-free |
| Rescue.ScheduleIsPermissionless | src/DepositForwarder.sol:284-284 | every step of that schedule is open to any caller |
| DepositFactories.DepositFactory.constructor | src/DepositFactory.sol:35-40 | starts with no clones |
| DepositFactories.DepositFactory.Deploy | src/DepositFactory.sol:83-91 | idempotent; a new clone reads back exactly the recipient and flag given, with zero storage |
| DepositFactories.DepositFactory.DeployAndFlush | src/DepositFactory.sol:102-113 | succeeds exactly when the caller may and the flush does; a failure takes the deployment back |
| Layout.ArgsReadBack | src/DepositForwarder.sol:131-147 | the clone reads back the committed recipient and flag |
| Layout.HookDataDecodes | src/DepositForwarder.sol:454-457 | the hook data decodes to the recipient exactly when its length fits `uint32` |
| Layout.HookDataIs | src/DepositForwarder.sol:454-457 | the frame byte by byte: 28 zeros, the length's low 32 bits, the recipient |
| Derivation.AbiEncodeInjective | src/DepositFactory.sol:50-52 | the salt preimage determines recipient and index |
| Derivation.AbiDecodes | src/DepositFactory.sol:50-52 | a decoder written from the ABI rules (offset word, value word, length and zero-padded data at the offset) reads back exactly recipient and index |
| Derivation.InitCodeInjective | src/DepositFactory.sol:44-63 | the creation code determines the immutable arguments |
| Derivation.InitCodeDeploys | verify-sdk/src/address.ts:75-83 | byte by byte, the creation code returns a proxy that delegates to the implementation and carries the arguments where the clone reads them |
| Derivation.DepositAddressIs | src/DepositFactory.sol:44-63 | the address is the last 20 bytes of the hash of 0xff, factory, salt and code hash, for a salt preimage that decodes to recipient and index and a creation code that deploys the clone with these arguments; none past 24_531 argument bytes |
| Derivation.LengthFieldExact | verify-sdk/src/address.ts:75-79 | the two-byte length is exact up to the clone library's limit, and exactly below 2^16 |
| Derivation.AddressCommits | src/DepositFactory.sol:59-63 | two commitments with one address are equal or exhibit a collision: of keccak itself on the salt or code preimages, or of the final 20-byte truncation |
| DepositFactories.AddressesAreDistinct | src/DepositFactory.sol:59-91 | two commitments whose clones stand at one address are one commitment or exhibit a collision |
| Derivation.Concat | verify-sdk/src/bytes.ts:8-16 | fills one buffer with the parts in order |
| Derivation.HexToBytes | verify-sdk/src/bytes.ts:18-22 | parses any string pair by pair as `parseInt` does; hex in either case to its bytes |
| Derivation.PairIs | verify-sdk/src/bytes.ts:18-22 | what each kind of pair parses to: digits, a digit and junk, space, plus, minus, nothing |
| Derivation.DigitsAre | verify-sdk/src/bytes.ts:18-28 | the sixteen digits in either case |
| Derivation.AsciiIs | verify-sdk/src/bytes.ts:4-6 | a character below 256 is its own byte |
| Derivation.BytesToHex | verify-sdk/src/bytes.ts:24-28 | writes lower-case hex |
| Derivation.HexRoundTrip | verify-sdk/src/bytes.ts:18-28 | reading back written hex is the identity |
| Derivation.Uint256 | verify-sdk/src/address.ts:118-120 | hex formatting, padding and parsing yield the 32-byte big-endian word |
| Derivation.AbiEncodeBytesUint256 | verify-sdk/src/address.ts:111-116 | produces the Solidity ABI encoding |
| Derivation.BuildInitCode | verify-sdk/src/address.ts:77-83 | produces the clone's creation code |
| Derivation.DeriveAddress | verify-sdk/src/address.ts:68-86 | equals the factory's address up to letter case, and fails exactly for over-long arguments |
| Derivation.ToChecksumAddress | verify-sdk/src/address.ts:122-128 | upper-cases exactly the letters whose digest nibble is at least 8 |
| Derivation.ChecksummedIs | verify-sdk/src/address.ts:122-128 | character by character against the digest's own half-bytes: upper case exactly for letters where it exceeds 7 |
| Derivation.ChecksumKeepsTheAddress | verify-sdk/src/address.ts:122-128 | checksumming changes case only |
| Derivation.VerifyDepositAddress | verify-sdk/src/address.ts:57-65 | true exactly for a well-formed spelling, in any case, of the twenty bytes the factory computes from the parameters |
| Derivation.VerifiedIffSameBytes | verify-sdk/src/address.ts:60-61 | equality of the two strings but for case is equality of the twenty bytes |
| Derivation.Be32 | verify-sdk/src/soroban.ts:43-45 | the four shifts are the big-endian word |
| Derivation.DeriveContractId | verify-sdk/src/soroban.ts:20-30 | hashes exactly the XDR contract-id preimage |
| SdkVaults.DeriveVaultAddress | verify-sdk/src/vault.ts:39-42 | the id the SDK computes is the address at which the factory deploys that recipient's vault |
| Layout.ContractIdPreimageInjective | verify-sdk/src/soroban.ts:20-30 | the preimage determines network, deployer and salt |
| Layout.ContractIdPreimageIs | verify-sdk/src/soroban.ts:13-30 | the preimage byte by byte: envelope type 8, network, preimage type 0, contract address type 1, salt |
| Soroban.XdrAddressIs | verify-sdk/src/soroban.ts:13-16 | an address in XDR byte by byte, account or contract |
| Crc16.ComputeCrc | verify-sdk/src/soroban.ts:33-40 | the nested loop computes the specified register |
| Crc16.CheckValue | verify-sdk/src/soroban.ts:33-41 | the published check value of CRC-16/XMODEM, 0x31c3 for "123456789", appended low byte first |
| Crc16.EncodeContract | verify-sdk/src/soroban.ts:33-41 | version byte 0x10, id and checksum, which holds |
| Crc16.CrcLinear | verify-sdk/src/soroban.ts:35-39 | the checksum is XOR-linear in register and body |
| Crc16.Shift8Injective | verify-sdk/src/soroban.ts:38-38 | the byte step never merges two registers |
| Crc16.Shift8Onto | verify-sdk/src/soroban.ts:38-38 | and reaches every register |
| Crc16.TwoByteErrorsChangeTheChecksum | verify-sdk/src/soroban.ts:33-40 | equal-length bodies differing only within two adjacent bytes have different checksums |
| Crc16.CorruptionIsDetected | verify-sdk/src/soroban.ts:33-41 | such a corruption of a checksummed string no longer checks |
| Bursts.CrcFeedsBits | verify-sdk/src/soroban.ts:35-39 | the byte loop is the bit-by-bit register over the body, most significant bit first |
| Bursts.FeedDetermines | verify-sdk/src/soroban.ts:35-39 | up to 16 bits are determined by what they do to a register |
| Bursts.BurstChangesTheChecksum | verify-sdk/src/soroban.ts:33-40 | different bodies whose bits agree outside 16 adjacent ones, at any offset, have different checksums |
| Bursts.OneCharacterIsDetected | verify-sdk/src/soroban.ts:33-41 | two checksummed strings that differ within one base32 character, across the border to the check bytes too, are the same |
| Vaults.SwapPaysTheOwner | stellar/contracts/vault/src/lib.rs:132-198 | for every filler, the owner gets the whole XLM balance, at least the prior one plus max(min_out, floor) >= min_delivery; the vault gives up at most `amount` USDC and no third token |
| Vaults.SwapEmptiesXlmIff | stellar/contracts/vault/src/lib.rs:177-180 | the vault is left without XLM exactly when its owner strkey does not name the vault itself |
| Vaults.DebitsExactlyIff | stellar/contracts/vault/src/lib.rs:165-168 | every swap through a filler debits exactly `amount` iff on no call a vault can make does the filler deliver and raise the vault's USDC |
| Vaults.NeverRefundsDebitsExactly | stellar/contracts/vault/src/lib.rs:165-168 | so for every filler that never raises its recipient's balance of the token it is paid in |
| Vaults.RefundingFillerIsPossible | stellar/contracts/vault/src/lib.rs:165-168 | for any network, owner, filler, oracle and tokens off the stack there is a successful swap of 10, no token created or lost, that debits less |
| Vaults.FloorOverflowsIff | stellar/contracts/vault/src/lib.rs:258-266 | the checked floor overflows iff the exact numerator or denominator exceeds 2^127-1, and is exact otherwise |
| Vaults.FreshnessIsAnInterval | stellar/contracts/vault/src/lib.rs:272-285 | the saturating tests accept exactly now-max_age to now+60 |
| Vaults.OracleFloorIff | stellar/contracts/vault/src/lib.rs:244-286 | the floor exists exactly within the code's bounds, with both prices positive, dated by the configured age and fitting; else which of InvalidConfig, OracleUnavailable, OracleStale, Overflow |
| Vaults.ExactFloorIs | stellar/contracts/vault/src/lib.rs:258-270 | the floor is the f with f * px * 10^6 <= amount * pu * (10^6 - discount) < (f + 1) * px * 10^6 |
| Vaults.SwapChecksIff | stellar/contracts/vault/src/lib.rs:132-163 | exactly when the checks before any transfer pass, and who is then paid and what is wanted |
| Vaults.SwapRefusals | stellar/contracts/vault/src/lib.rs:132-163 | which error each broken condition meets |
| Vaults.SwapSucceedsIff | stellar/contracts/vault/src/lib.rs:164-198 | given the checks, exactly when the filler's answer makes the swap succeed, fall short or trap, and what it returns |
| Vaults.SwapIff | stellar/contracts/vault/src/lib.rs:132-198 | both together: exactly when a swap succeeds, from the call's arguments, balances and feeds to the filler's answer |
| Vaults.WithdrawIff | stellar/contracts/vault/src/lib.rs:208-226 | exactly when a withdrawal succeeds, that it moves all of that token and nothing else, and its two errors |
| Vaults.SwapIsHeldToTheFloor | stellar/contracts/vault/src/lib.rs:132-285 | every successful swap used prices no older than the configured age and delivered at least max(min_out, the exact floor at the configured discount) |
| Vaults.SwapRespectsTheMarket | stellar/contracts/vault/src/lib.rs:132-285 | every successful swap satisfies 10 px (out+1) > 9 amount pu with both prices dated within [now-900, now+60] |
| Vaults.FloorIsMonotone | stellar/contracts/vault/src/lib.rs:241-266 | monotone in amount and USDC price, antitone in XLM price and discount |
| Vaults.BatchingLosesAtMost | stellar/contracts/vault/src/lib.rs:244-270 | the floors of k partial swaps sum to between the whole floor less k-1 and the whole floor |
| Vaults.VaultAddressCommits | stellar/contracts/vault/src/lib.rs:229-239 | two (factory, owner) pairs with one vault address are the same pair or exhibit a sha256 collision |
| Vaults.DoSwap | stellar/contracts/vault/src/lib.rs:132-198 | the step-by-step swap returns and leaves what is specified; any failure restores every balance |
| Vaults.DoWithdraw | stellar/contracts/vault/src/lib.rs:208-226 | returns the whole balance to the signing owner, or changes nothing |
| Fillers.FillDelivers | stellar/contracts/aquarius-filler/src/lib.rs:114-188 | for every router, a successful fill takes exactly the input and delivers at least the minimum |
| Fillers.FillRefusals | stellar/contracts/aquarius-filler/src/lib.rs:123-143 | which error each broken condition of the call meets: not a vault, amounts, no route, empty route, route to another token |
| Fillers.FillSucceedsIff | stellar/contracts/aquarius-filler/src/lib.rs:145-188 | a routed call is filled exactly when the router takes `amount_in` and pays at least `min_out` that the recipient can hold; else InputNotTaken, Shortfall or a trap |
| Fillers.SameTokenNeverFills | stellar/contracts/aquarius-filler/src/lib.rs:169-177 | token_in = token_out can never succeed |
| Fillers.AdapterKeepsNothing | stellar/contracts/aquarius-filler/src/lib.rs:169-178 | within a vault swap the adapter ends with the USDC and XLM it began with, unless the owner strkey names the adapter |
| Fillers.AdapterCanBeTheOwner | stellar/contracts/aquarius-filler/src/lib.rs:169-178 | then it ends with more XLM: such a swap, no token created or lost, for any network, oracle, router and tokens off the stack and any strkey naming the adapter |
| Fillers.AdapterDebitsExactlyIff | stellar/contracts/aquarius-filler/src/lib.rs:158-178 | through the adapter the vault is debited exactly `amount` iff the router leaves it no USDC on top of the hand-over |
| Fillers.HonestRouterCompletesTheSwap | stellar/contracts/aquarius-filler/src/lib.rs:114-188 | a router that takes the input and pays `want` makes the whole swap succeed |
| Fillers.AquariusFiller.constructor | stellar/contracts/aquarius-filler/src/lib.rs:77-80 | stores router and vault code |
| Fillers.AquariusFiller.DoFill | stellar/contracts/aquarius-filler/src/lib.rs:114-188 | the step-by-step fill returns and leaves what is specified; any failure restores every balance |
| VaultFactories.ConfigStaysUsable | stellar/contracts/vault-factory/src/lib.rs:100-114 | after any admin calls the config handed out passes the vault's checks and is the constructor's but for a capped discount |
| VaultFactories.FactorySwapNeverMisconfigured | stellar/contracts/vault-factory/src/lib.rs:225-263 | no factory swap fails with InvalidConfig or NotThisVault |
| VaultFactories.AdministerDoes | stellar/contracts/vault-factory/src/lib.rs:181-211 | which admin calls pass, and that each moves its one thing |
| VaultFactories.VaultIsHanded | stellar/contracts/vault-factory/src/lib.rs:225-263 | what the vault is called with: the request, the whole balance by default, and the constructor's config at the discount in force |
| VaultFactories.DiscountReachesTheVault | stellar/contracts/vault-factory/src/lib.rs:196-263 | an accepted `set_discount` is the discount of the next swap; no other call moves it |
| VaultFactories.DeployDoes | stellar/contracts/vault-factory/src/lib.rs:129-149 | exactly the derived address gains code, if it had none, and a malformed owner nothing |
| VaultFactories.DeliversIff | stellar/contracts/vault-factory/src/lib.rs:159-250 | exactly when a relayed swap delivers, from the relayer's signature to the filler's answer |
| VaultFactories.VaultFactory.constructor | stellar/contracts/vault-factory/src/lib.rs:100-114 | stores admin and config, no relayers, no discount override |
| VaultFactories.VaultFactory.CheckConfig | stellar/contracts/vault-factory/src/lib.rs:101-110 | refuses exactly the configs the vault could not use, or whose oracle is a token |
| VaultFactories.VaultFactory.SetRelayer | stellar/contracts/vault-factory/src/lib.rs:181-190 | admin only; enables or removes exactly that relayer |
| VaultFactories.VaultFactory.SetDiscount | stellar/contracts/vault-factory/src/lib.rs:196-203 | admin only, within the cap |
| VaultFactories.VaultFactory.SetAdmin | stellar/contracts/vault-factory/src/lib.rs:206-211 | both admins must sign |
| VaultFactories.VaultFactory.DoDeploy | stellar/contracts/vault-factory/src/lib.rs:129-149 | idempotent; vault code at the derived address, malformed owners refused |
| VaultFactories.VaultFactory.DoSwap | stellar/contracts/vault-factory/src/lib.rs:159-250 | deploys if needed, calls the vault and returns what that call returned, as specified; a failure undoes both |
| Delivery.ReachableSound | stellar/contracts/vault-factory/src/lib.rs:181-211 | in every run, at every call made in it, the factory keeps its config, its discount within the cap |
| Delivery.ReachableCode | stellar/contracts/vault-factory/src/lib.rs:129-149 | and only vault code ever sits at an owner's vault address, unless a deployment exhibits a hash collision |
| Delivery.OwnerCanAlwaysLeave | stellar/contracts/vault/src/lib.rs:208-226 | after any run without a collision, deploy then withdraw with the owner's signature returns the whole balance |
| Delivery.LossesAreAccountedFor | stellar/contracts/vault/src/lib.rs:4-14 | over any run a vault loses of a token at most what its owner withdrew and what relayers' swaps for its owner took, at any depth of nesting, or a call exhibits a collision |
| Delivery.SwapCosts | stellar/contracts/vault/src/lib.rs:132-198 | what that account charges a relayer's swap with: its amount of USDC, and of XLM what was held and delivered |
| Delivery.WithdrawalCosts | stellar/contracts/vault/src/lib.rs:208-226 | and a withdrawal: the balance |
| Delivery.VaultLosesOnlyForItsOwner | stellar/contracts/vault/src/lib.rs:4-14 | so it loses only if some call, nested or not, was its owner's signed withdrawal or an enabled relayer's swap for its owner, or exhibits a collision |
| Delivery.OutflowPaysItsClaim | stellar/contracts/vault/src/lib.rs:180-224 | every payment out of a vault, in a top-level or a nested call, is its whole balance of the token, to the account named by an owner whose derivation is that vault |
| Delivery.PayeeIsFixedByAddress | stellar/contracts/vault/src/lib.rs:229-239 | in every run any two payments out of one vault, nested or not, whatever owner and factory their callers claim, go to one payee, or the claims collide |
| Delivery.VaultPaysItsOwner | stellar/contracts/vault/src/lib.rs:229-239 | in every run a vault of this factory pays, in any call, only the account its own owner's strkey names, or a claim collides with it |
| Delivery.DeliveredSwapIsFair | stellar/contracts/vault/src/lib.rs:116-198 | in every run every delivery, nested or not, was called with the request at the factory's config and discount, credits the strkey's account with all XLM the vault held and at least max(min_out, the exact floor at that discount) on top, leaves the vault none, and is worth nine tenths at prices no older than the configured age |
| Delivery.SwapsAreOnTerms | stellar/contracts/vault-factory/src/lib.rs:159-263 | in every run every relayer's swap is by a relayer last enabled by whoever was admin, at the discount of the last accepted `set_discount`, or the constructor's |
| Delivery.RelayerSwapIff | stellar/contracts/vault-factory/src/lib.rs:159-250 | in every reachable world, exactly when a relayer's swap goes through, its filler's turn being any run |
| Delivery.DirectSwapIff | stellar/contracts/vault/src/lib.rs:132-198 | the same for a swap past this factory |
| Delivery.DirectWithdrawIff | stellar/contracts/vault/src/lib.rs:208-226 | exactly when a withdrawal goes through, in any world and on any stack, and what it moves |
| Delivery.RunsPayNineTenths | stellar/contracts/vault/src/lib.rs:241-270 | over any run the XLM bought for an owner is at least nine tenths of the USDC swapped, each at the prices of its moment, rounded down |

## Left out

- Hash internals and signatures: hashes are function parameters, authorization a set of verified signers.
- Base32 and strkey decoding (`verify-sdk/src/vendor`): the encoded string is modelled up to the bytes handed to base32, and a base32 character as five adjacent bits of them.
- DeriveContractId: does not model decoding the deployer's strkey or base32-encoding the result, which is vendored code; the checksum in between is `Crc16.WithChecksum`.
- The SDK's validation of recipient, asset, speed and index types, and the choice between recipient and vault: single branches; `DeriveAddress` and `VerifyDepositAddress` take parameters already validated.
- Circle's attestation, Stellar-side minting and executed fees: only the burn's acceptance rule and the message are modelled.
- ERC-20 allowances: the approval and the pull happen in one step, so a standing allowance is not state.
- Re-entrancy of the rescue sink: its native call is a plain transfer followed by the final balance check.
- Events other than `Settled`, gas, rent, trustlines and account reserves.
- `Runs.Step` takes `deployAndFlush` as a deployment followed by a flush with the factory as caller; its atomicity is in `DepositFactories.DepositFactory.DeployAndFlush`.
- Withdrawals and payments of classic assets that fail for want of a trustline: transfers fail only for balance or overflow.
- XDR decoding of the Aquarius route: the route arrives decoded.
- Tokens whose own code misbehaves: a token is the ledger's, so a withdrawal of some other contract's token runs none of its code.
- The stack beyond vaults and factories: `Delivery` lets a filler's turn call back into any other contract, which the host would refuse for those already running; every run the host allows is among these.
