# A verified model of go-pool

go-pool is a mining pool in two kinds of process. The **master** divides block rewards among miners by
PPLNS, keeps balances and pays them out. **Slaves** talk to miners: they hand out jobs, check shares,
penalise misbehaving addresses, and forward what was earned to the master over an encrypted, framed
protocol. This project models the deterministic logic of both and proves what it promises: money is
conserved under float64 rounding, the penalty box and its background sweep agree over every run, stored and
transmitted records are read back, jobs and shares are credited correctly over every interleaving.

`dafny verify dfyconfig.toml` checks everything.

## How the model is laid out

| module | subject |
|---|---|
| `Binary64` | IEEE 754 binary64: rounding to nearest, ties to even, on the real line; uint64 wrap-around and conversion |
| `Reals`, `Sums`, `Shares`, `Distribution`, `RewardLedger` | dividing a block reward and crediting balances |
| `Pplns`, `Updater`, `UpdaterExact` | choosing the shares a reward is divided over; dividing a confirmed transfer, with and without rounding |
| `Withdraw`, `WithdrawRuns` | paying out pending payments, once and over any sequence of runs |
| `PenaltyBox`, `PenaltyRates`, `PenaltyRules`, `PenaltyRuns` | share windows, bans and sweep; what each operation refuses, counts and forgets; every interleaving of them |
| `Wire`, `Serializer`, `Flattening`, `PendingBalances` | the binary codec and the nested records stored with it |
| `Endian`, `Base58` | bytes and numbers; CryptoNote Base58 |
| `Difficulty`, `Nicehash`, `Connection` | targets and hash difficulty; the shared Nicehash job; one miner's connection |
| `VerifyQueue`, `DaemonPool` | the verification queue with concurrent workers; the round-robin daemon pool |
| `ShareCache`, `Protocol` | shares cached and flushed by the slave; framing, packets and what the master stores |

Objects whose methods update their fields are classes, and each method is proved equal to a function on
values; the properties over runs are lemmas about those functions. Everything outside (clock, daemon, wallet,
database answers, map iteration order, random choice, the value of an out-of-range float conversion) is a
parameter or an arbitrary choice, so the results hold for all of them. Rounding is a parameter `fl` with the
three properties of `Binary64.Correct` (and, where said, idempotence); `Binary64.RoundIsCorrect` proves that
rounding to nearest has them. `Binary64.Unrounded` is exact arithmetic as such a rounding. `Optional` and
`Collections` are small helpers.

## Where the code does not do what it says

The model follows the code. These are the places where that matters, each with a proved statement.

- `GetSharesForPPLNS` walks the list from its end and is commented as taking the newest shares
  (cmd/master/pplns.go:114), but the list is fetched newest first (pkg/ledger/ledger.go:228).
  `Pplns.SelectsNewestIff` says exactly when the newest shares are the ones selected (when nothing is left out, or
  all are of one second); `Pplns.NewestLeftOut` is a list where they are not. The uint64 counter can also step over
  the window (`Pplns.OverflowSelectsMore`); `Pplns.SelectsShortestIff` says exactly when.
- The slave sends one packet with a count and a total difficulty; the master stores that total once per share
  (cmd/master/master.go:117-129). `Protocol.RunStoredIff`: over any run the work stored for a wallet and worker is
  at least what was shared, and equals it exactly if every packet for them held one share or no difficulty.
  `Protocol.FlushDoublesWork`: two shares and one flush store twice the work.
- `calculateDistributions` can pay out one unit more than the transfer: `Updater.TransferWithin` bounds the excess by
  one, `Updater.NeverOverpaidIff` gives the exact threshold without a fee (360287970189641 units, where
  `Updater.ThresholdOverpays` is the failing input), `Updater.WholePercentConserved` a range in which whole-percent
  fees are safe, and `Updater.FractionalFeeOverpays` a fee of 14.4 percent that pays 376 units out of 375.
- `UpdatePaymentStatus` writes a column the payments table lacks and shares one txid among rows with a UNIQUE
  txid (pkg/ledger/ledger.go:354, pkg/ledger/schema.sql:42-53). `WithdrawRuns.PaidAgainIff`: nothing that can happen
  after a transfer pays a payment again if and only if its update succeeded. `WithdrawRuns.FailedUpdatePaysTwice`
  is a run that pays twice, and `WithdrawRuns.FailedUpdatesRepeat` says that every run does while updates fail.
- `DiffToTarget` is commented as an 8-byte target and pads to four bytes: `Difficulty.TargetHasEightBytesIff`.
- `HashToDiff` panics on hashes below 2^192 although its message calls that impossible, and returns 0 when the
  low 64 bits are zero: `Difficulty.HashReachesIff` for every hash, `Difficulty.ZeroEndedHash` for one.
- With a share window above ten minutes the background sweep forgives bad shares: `PenaltyRuns.SweepInvisibleIff`.
- Block rewards are conserved below 2^51 (`Distribution.RewardConserved`) and not in general: two miners are
  overpaid at 3232485603750322, between 2^51 and 2^52 (`Distribution.TwoMinersOverpaid`), and a lone miner exactly
  when the conversion of the reward to float64 rounds up (`Distribution.LoneMinerRounding`), as it does at
  2^53 + 3 (`Distribution.LargeRewardOverpays`).
- A new block's job can get the network difficulty itself (`Connection.LargeNetDiffReached`);
  `Connection.NewBlockDiffIff` gives the exact condition.

## Model

| member | source | states |
|---|---|---|
| `Binary64.RoundIsCorrect` | cmd/master/master.go:209-217 | Rounding to nearest, ties to even, is monotone, has relative error at most 2^-53, keeps integers up to 2^53 and is idempotent, so every result below holds for Go's float64 |
| `Binary64.RoundError` | cmd/master/master.go:209-217 | Relative error of one float64 rounding, by induction on the scaling of the significand |
| `Binary64.RoundMonotone` | cmd/master/master.go:209-217 | A float64 rounding never swaps two numbers |
| `Binary64.RoundExact` | cmd/master/master.go:209-217 | Every integer up to 2^53 converts exactly |
| `Binary64.RoundTwice` | cmd/master/master.go:209-217 | Rounding again changes nothing |
| `Binary64.RoundOfWhole` | cmd/master/master.go:210-217 | A whole number rounds to a whole number |
| `Shares.Aggregate` | cmd/master/master.go:196-202 | The aggregation loop computes the total and the total per miner, modulo 2^64, for exactly the miners of the window |
| `Shares.SumByMiner` | cmd/master/master.go:196-202 | Splitting the window by miner loses no difficulty, whatever order the map is visited in |
| `Distribution.RewardConserved` | cmd/master/master.go:208-221 | Fee plus all miner rewards never exceed a block reward below 2^51 and fall short of it by at most one unit per miner, under rounding of every conversion, division and product, for every share list and fee in [0,100] percent |
| `Distribution.NetDivided` | cmd/master/master.go:214-217 | The truncated float64 rewards of all miners add up to the net reward, less at most one unit per miner, never more |
| `Distribution.FeeWithin` | cmd/master/master.go:209-211 | The fee never exceeds the reward, so the unsigned subtraction does not wrap, for every reward not rounded up |
| `Distribution.FeeWithinIff` | cmd/master/master.go:209-211 | That holds for every fee exactly if the reward is not rounded up by one or more |
| `Distribution.FeeIsPercentage` | cmd/master/master.go:209-210 | Below 2^51 the fee is the configured percentage of the reward, up to rounding and one unit of truncation |
| `Distribution.FeeMonotone` | cmd/master/master.go:209-210 | A larger percentage never gives a smaller fee |
| `Distribution.RewardFair` | cmd/master/master.go:214-217 | A miner with at least as much difficulty never gets less, for every net reward whose float64 value fits in 64 bits |
| `Distribution.LoneMinerOverpaidIff` | cmd/master/master.go:208-217 | A lone miner without a fee gets more than the block exactly if the reward is rounded up by at least one |
| `Distribution.LoneMinerRounding` | cmd/master/master.go:208-217 | In float64: exactly if the conversion of the reward rounds up |
| `Distribution.TwoMinersOverpaid` | cmd/master/master.go:214-217 | A reward below 2^52 and two miners whose rewards add up to one unit more |
| `Distribution.LargeRewardOverpays` | cmd/master/master.go:214-217 | For reward 2^53 + 3 a lone miner is paid one unit more than the block |
| `Distribution.WrappedWindowOverpays` | cmd/master/master.go:196-202 | If the window's difficulty wraps around 2^64, one unit of reward pays out 2^53 |
| `RewardLedger.Ledger.DistributeBlockReward` | cmd/master/master.go:182-287 | A failed fetch, no shares and zero total difficulty change nothing; otherwise every positive reward gets one distribution row and is added to its balance unless its ledger operations fail, the pool_fees row holds the configured percentage of the reward, and the block is marked |
| `RewardLedger.Ledger.CreditMiners` | cmd/master/master.go:214-261 | The loop over the miners credits each once, in any order |
| `RewardLedger.Ledger.RecordReward` | cmd/master/master.go:219-236 | A distribution row exactly for a positive reward whose creation succeeds |
| `RewardLedger.Ledger.CreditBalance` | cmd/master/master.go:239-258 | The balance grows by the reward unless there is no row or the balance cannot be read or written |
| `RewardLedger.BalancesConserved` | cmd/master/master.go:182-287 | Growth of all balances plus fee is at most the reward, reaches it up to one unit per miner when nothing fails, and no balance shrinks |
| `RewardLedger.CreditsConserved` | cmd/master/master.go:231-254 | What the balances gain is what was paid, for any set of failing miners |
| `RewardLedger.BalanceRules` | cmd/master/master.go:231-258 | Each balance by itself grows by the miner's reward, or stays if the miner's ledger operations fail |
| `RewardLedger.SumUnpaid` | cmd/master/master.go:214-261 | What is not paid is exactly what fails |
| `RewardLedger.FeeCollected` | cmd/master/master.go:264-274 | The fee row holds the configured percentage, and is missing only if that is zero or the insertion fails |
| `Pplns.Manager.constructor` | cmd/master/pplns.go:23-32 | The tracked window starts at the configured target |
| `Pplns.Manager.GetPPLNSWindow` | cmd/master/pplns.go:35-54 | The tracked window is clamped in place between the two float64 bounds, with network difficulty 1 when the ledger fails |
| `Pplns.ClampNearest` | cmd/master/pplns.go:47-53 | With ordered bounds the result is the value between them closest to the tracked one, and clamping again changes nothing |
| `Pplns.BoundsOrdered` | cmd/master/pplns.go:43-44 | Ordered factors give ordered bounds in spite of two roundings and a truncation |
| `Pplns.BoundIs` | cmd/master/pplns.go:43-44 | A bound is the factor times the network difficulty, up to two roundings and a truncation |
| `Pplns.WindowWithin` | cmd/master/pplns.go:36-53 | The window lies between the bounds for the network difficulty, or for difficulty 1 while it is unknown, and a tracked value between them is kept |
| `Pplns.WalkBack` | cmd/master/pplns.go:113-129 | The loop returns a suffix, order kept, starting where the wrapped counter first reaches the window counting from the end, or at the front |
| `Pplns.Manager.GetSharesForPPLNS` | cmd/master/pplns.go:104-130 | The selection for the clamped window, or the ledger's error |
| `Pplns.SelectionIsShortest` | cmd/master/pplns.go:113-129 | Below 2^64 in total: the result reaches the window or is the whole list, no shorter suffix does, and dropping its first share falls below the window exactly if the window is positive |
| `Pplns.SelectsShortestIff` | cmd/master/pplns.go:119-126 | In general the loop finds the shortest suffix reaching the window if and only if that suffix's difficulty fits in 64 bits or it is the whole list |
| `Pplns.ShortestExists` | cmd/master/pplns.go:113-129 | The reference selection exists for every list and window |
| `Pplns.OverflowSelectsMore` | cmd/master/pplns.go:119-126 | Three shares for which the wrapped counter walks past the window |
| `Pplns.SelectsNewestIff` | cmd/master/pplns.go:113-126 | On a list fetched newest first, no share left out is newer than a selected one if and only if the window leaves nothing out or all shares are of the same second |
| `Pplns.SelectsAllIff` | cmd/master/pplns.go:119-126 | Nothing is left out if and only if all but the first share are below the window |
| `Pplns.NewestLeftOut` | cmd/master/pplns.go:113-126 | Two shares of which the newer is left out |
| `Pplns.Manager.GetMinerSharePercentage` | cmd/master/pplns.go:169-190 | The miner's part of the selected shares as a float64 quotient, 0 when their total is 0, or the ledger's error |
| `Pplns.PercentageOf` | cmd/master/pplns.go:175-190 | The loop and the quotient |
| `Pplns.PercentagesSumNearOne` | cmd/master/pplns.go:169-190 | In float64 the percentages of all miners of the window add up to 1 within 2^-51 |
| `Pplns.PercentagesSumToOne` | cmd/master/pplns.go:169-190 | In exact arithmetic the percentages of all miners of the window add up to 1 |
| `Pplns.StrangerPercentage` | cmd/master/pplns.go:178-190 | A miner without a share in the window has percentage 0 |
| `Updater.CalculateDistributions` | cmd/master/updater.go:320-384 | One record per miner of the window, no miner twice, and the pool fee last; nothing for an empty window; every amount in float64 |
| `Updater.TransferWithin` | cmd/master/updater.go:333-378 | Below 2^51, with every operation rounded: net rewards of all n miners plus pool fee exceed the transfer by at most 1 and fall short of it by at most 2n |
| `Updater.WholePercentConserved` | cmd/master/updater.go:348-366 | With a whole-percent fee and an amount up to 2^53/100 nothing is overpaid |
| `Updater.WholePercent` | cmd/master/updater.go:349-366 | There a net reward is the exact integer quotient |
| `Updater.NeverOverpaidIff` | cmd/master/updater.go:348-366 | Without a fee, no transfer up to a bound is overpaid for any shares if and only if the bound is below 360287970189641 |
| `Updater.ThresholdOverpays` | cmd/master/updater.go:348-366 | At that amount two miners and the pool get one unit too many |
| `Updater.FractionalFeeOverpays` | cmd/master/updater.go:348-366 | With a fee of 14.4 percent 375 units pay out 376 |
| `UpdaterExact.TransferConserved` | cmd/master/updater.go:333-378 | In exact arithmetic, for every amount: never more than the transfer, and less than 2n below it despite two truncations per miner |
| `UpdaterExact.ScaledNet` | cmd/master/updater.go:348-350 | In exact arithmetic a net reward is at most the untruncated one and less than two units below it |
| `Withdraw.Group` | cmd/master/withdraw.go:63-66 | Payments are grouped by recipient, each group in listing order |
| `Withdraw.TotalAmount` | cmd/master/withdraw.go:73-76 | The total of a group modulo 2^64 |
| `Withdraw.Master.constructor` | cmd/master/withdraw.go:45-105 | No payments and no transfers at first |
| `Withdraw.Master.CreatePayment` | pkg/ledger/ledger.go:304-317 | A new row under a fresh id |
| `Withdraw.Master.SendPayment` | cmd/master/withdraw.go:109-146 | The wallet is asked for the total less the fee, in uint64 arithmetic |
| `Withdraw.Master.MarkSent` | cmd/master/withdraw.go:96-101 | Exactly the listed payments whose update succeeds become sent |
| `Withdraw.Master.PayRecipient` | cmd/master/withdraw.go:71-104 | Below the minimum nothing happens; otherwise one wallet call, and statuses change only if it succeeds |
| `Withdraw.Master.Withdraw` | cmd/master/withdraw.go:45-105 | One run calls the wallet exactly once for each recipient whose pending sum reaches the minimum and for no other, and leaves the table as `After` says, whatever the order of the map |
| `WithdrawRuns.StatusChangesIff` | cmd/master/withdraw.go:82-101 | A payment changes exactly if it was pending, its recipient was paid and its update succeeded; it then only becomes sent |
| `WithdrawRuns.AmountsRightIff` | cmd/master/withdraw.go:112-121 | Every transfer is for the sum less the fee if and only if the fee is at most the minimum |
| `WithdrawRuns.NeverPaidTwice` | cmd/master/withdraw.go:62-105 | If updates succeed, over any sequence of new payments and runs no payment is part of two successful transfers |
| `WithdrawRuns.PayoutsConserved` | cmd/master/withdraw.go:62-121 | Over any such sequence the payments marked sent are worth exactly what the wallet paid plus the fees withheld |
| `WithdrawRuns.PaidAgainIff` | cmd/master/withdraw.go:96-101 | After a payment was part of a successful transfer, no continuation of new payments and runs pays it again if and only if its update succeeded |
| `WithdrawRuns.NeverAgainIff` | cmd/master/withdraw.go:62-105 | No continuation pays a payment if and only if it is marked sent |
| `WithdrawRuns.SentIsFinal` | cmd/master/withdraw.go:62-105 | A payment marked sent stays so and is in no later transfer |
| `WithdrawRuns.PendingCanBePaid` | cmd/master/withdraw.go:62-105 | A pending payment is paid by some continuation: one more payment brings its recipient over the minimum |
| `WithdrawRuns.FailedUpdatesRepeat` | cmd/master/withdraw.go:96-101 | Over any number of runs whose updates fail, whatever the wallet answers, the table stays and every run asks for the same transfers |
| `WithdrawRuns.FailedUpdatePaysTwice` | cmd/master/withdraw.go:62-105 | A run of three events that pays one payment twice |
| `PenaltyBox.Box.constructor` | cmd/slave/penalty.go:34-38 | An empty box |
| `PenaltyBox.Box.Contains` | cmd/slave/penalty.go:217-224 | Membership |
| `PenaltyBox.Box.BanIp` | cmd/slave/penalty.go:86-92 | The ban's end, and every window of the IP's connections gone |
| `PenaltyBox.Box.OpenWindow` | cmd/slave/penalty.go:57-70 | A missing or expired window is replaced and its connection listed once |
| `PenaltyBox.Box.JudgeShare` | cmd/slave/penalty.go:73-127 | Rate check, count and ratio check with their float64 comparisons |
| `PenaltyBox.Box.RecordShare` | cmd/slave/penalty.go:41-128 | New state and answer for every state, share and clock reading |
| `PenaltyBox.Box.CheckBanned` | cmd/slave/penalty.go:131-141 | Banned exactly before the end of a recorded ban |
| `PenaltyBox.Box.CleanupConnection` | cmd/slave/penalty.go:144-164 | The window and the listing of the connection are gone, an emptied list too |
| `PenaltyBox.Box.SweepOnce` | cmd/slave/penalty.go:172-190 | Windows over ten minutes old and expired bans are removed, with the clock read anew per entry and any order of the maps |
| `PenaltyRules.RecordRules` | cmd/slave/penalty.go:41-128 | A share of a free IP, in counts and nanoseconds: refused and banned for the configured minutes if at least ten remembered shares exceed the rate, or at least six shares the bad ratio, by more than the rounding; accepted and counted on its side, in the right window, if both stay below |
| `PenaltyRules.JudgeRules` | cmd/slave/penalty.go:72-127 | The same in the open window; a refused share leaves no window of the IP's connections |
| `PenaltyRules.BannedRules` | cmd/slave/penalty.go:47-51 | A share of a banned IP is refused and changes nothing |
| `PenaltyRules.CleanupRules` | cmd/slave/penalty.go:144-164 | The connection's window and every listing of it are gone, everything else is kept |
| `PenaltyRules.SweepRules` | cmd/slave/penalty.go:172-190 | Exactly the windows older than ten minutes and the bans that are over are removed |
| `PenaltyRates.RateCheck` | cmd/slave/penalty.go:79-84 | Ten shares in n nanoseconds against the maximum per second, with four roundings to spare on either side |
| `PenaltyRates.RatioCheck` | cmd/slave/penalty.go:108-111 | Bad shares against the ratio of all, with two roundings to spare on either side |
| `PenaltyRates.SecondsNear` | cmd/slave/penalty.go:80-80 | The seconds of a duration, within two roundings |
| `PenaltyRuns.SweepInvisible` | cmd/slave/penalty.go:41-192 | With a share window of at most ten minutes, sweeps inserted anywhere in any timed run change no answer |
| `PenaltyRuns.RunSimulates` | cmd/slave/penalty.go:41-192 | The simulation between swept and unswept boxes behind it, from any related states |
| `PenaltyRuns.SweepInvisibleIff` | cmd/slave/penalty.go:58-177 | The sweep is invisible in every configuration and run if and only if the share window is at most ten minutes |
| `PenaltyRuns.SweepForgives` | cmd/slave/penalty.go:58-177 | For every longer window a run in which the sweep saves a miner from a ban |
| `PenaltyRuns.AlwaysSound` | cmd/slave/penalty.go:47-164 | In every reachable state each connection with a window is listed exactly once, under its IP, no list is empty, timings respect the configured size, every window the bad-share ratio, and no banned IP has a window |
| `PenaltyRuns.StepSound` | cmd/slave/penalty.go:47-164 | Every operation keeps that |
| `PenaltyRuns.BanLasts` | cmd/slave/penalty.go:47-54 | Whatever else runs, a ban stands and every share and check of the IP sees it until it ends |
| `PenaltyRuns.BanIsExact` | cmd/slave/penalty.go:81-128 | A refused share of a free IP bans it from then until exactly ban time plus duration, with no window left for it at any time before |
| `Wire.UvarintRoundTrip` | serializer/deserializer.go:78-94 | Every 64-bit varint is read back and nothing after it is consumed |
| `Wire.ReadsByteSlice` | serializer/deserializer.go:107-129 | A length-prefixed slice is read back with any suffix untouched |
| `Wire.ReadsFixed` | serializer/deserializer.go:95-106 | A fixed array is read back with any suffix untouched |
| `Wire.ReadsBool` | serializer/deserializer.go:134-151 | A bool is read back with any suffix untouched |
| `Serializer.DecodeUvarint` | serializer/deserializer.go:86-91 | The byte loop of the varint decoder computes the recursive definition, overflow and truncation included |
| `Serializer.Writer.AddUvarint` | serializer/serializer.go:47-50 | Appends the varint |
| `Serializer.Writer.AddByteSlice` | serializer/serializer.go:57-59 | Appends length and bytes |
| `Serializer.Writer.AddFixedByteArray` | serializer/serializer.go:51-56 | Appends the bytes, or panics exactly on a wrong length |
| `Serializer.Writer.AddUint8` | serializer/serializer.go:34-36 | Appends one byte |
| `Serializer.Writer.AddBool` | serializer/serializer.go:68-74 | Appends 0 or 1 |
| `Serializer.Reader.Uint8` | serializer/deserializer.go:30-41 | The cursor's step, with the sticky error |
| `Serializer.Reader.Uvarint` | serializer/deserializer.go:78-94 | The cursor's step; a truncated varint reads as 0 and consumes nothing |
| `Serializer.Reader.FixedByteArray` | serializer/deserializer.go:95-106 | The cursor's step, with the sticky error |
| `Serializer.Reader.ByteSlice` | serializer/deserializer.go:107-129 | The cursor's step; a declared length of 2^63 or more panics |
| `Serializer.Reader.Bool` | serializer/deserializer.go:134-151 | The cursor's step; a byte other than 0 and 1 is an error |
| `PendingBalances.SerializeTx` | database/database.go:105-121 | One of the encodings of the transaction, with the map in some order |
| `PendingBalances.Serialize` | database/database.go:144-158 | One of the encodings of the value |
| `PendingBalances.DeserializeTx` | database/database.go:122-142 | The record reader, panics included |
| `PendingBalances.Deserialize` | database/database.go:160-184 | The reader of the whole value; the first failing record ends it |
| `PendingBalances.TxParses` | database/database.go:105-142 | Followed by any bytes, a transaction is read back in whatever order its balances were written, and exactly the bytes after it are returned |
| `PendingBalances.ReadsMany` | database/database.go:173-181 | Any list of self-delimiting records is read back record by record |
| `PendingBalances.RoundTrip` | database/database.go:144-184 | Deserialize undoes Serialize for every value, number of transactions and iteration order of every map |
| `PendingBalances.EncodingInjective` | database/database.go:144-184 | No byte string stores two different values |
| `PendingBalances.NegativeCountPanics` | database/database.go:169-171 | A count of 2^63 or more panics |
| `PendingBalances.TruncatedInput` | database/database.go:122-184 | A header cut off is an error, a hash cut off a panic |
| `Base58.EncodeBlock` | address/base58.go:39-60 | The commented encoder's loops compute the padded base-58 digits |
| `Base58.DecodeBlock` | address/base58.go:62-85 | The decoder's loops compute `DecodedBlock`, invalid characters and lengths included |
| `Base58.Encode` | address/base58.go:87-101 | Block by block |
| `Base58.Decode` | address/base58.go:103-112 | Block by block |
| `Base58.DecodeBlockValue` | address/base58.go:62-85 | A block of valid length decodes to exactly i big-endian bytes of its base-58 value modulo 256^i, and to nothing if a character is not base58 |
| `Base58.EncodeBlockShape` | address/base58.go:37-60 | Every block of n bytes becomes exactly its tabulated number of characters, so both sides split alike |
| `Base58.DecodeBlockInvalid` | address/base58.go:77-84 | A block of any other length decodes to nothing |
| `Base58.Alphabet` | address/base58.go:22-34 | The alphabet is in ascending order |
| `Base58.AlphabetIs` | address/base58.go:22-34 | It is made of exactly the digits and letters other than 0, I, O and l, and everything else reads as 0 |
| `Base58.BlockRoundTrip` | address/base58.go:39-85 | Decoding a block undoes encoding it |
| `Base58.RoundTrip` | address/base58.go:37-112 | Decoding undoes encoding for every byte string |
| `Base58.CanonicalIff` | address/base58.go:39-85 | Encoding undoes decoding for a block if and only if its value fits in the block's bytes |
| `VerifyQueue.Queue.constructor` | cmd/slave/verify_queue.go:116-122 | An empty queue |
| `VerifyQueue.Queue.Submit` | cmd/slave/verify_queue.go:138-150 | A pending row under a new id |
| `VerifyQueue.Queue.ClaimNext` | cmd/slave/verify_queue.go:166-212 | The pending row submitted first becomes processing, or nothing is pending |
| `VerifyQueue.Queue.Finish` | cmd/slave/verify_queue.go:214-264 | Verified exactly if the proof of work matches, failed otherwise, unless the update fails |
| `VerifyQueue.Queue.UpdateStats` | cmd/slave/verify_queue.go:389-408 | Running average and maximum |
| `VerifyQueue.Queue.CountFailed` | cmd/slave/verify_queue.go:384-387 | The failure counter |
| `VerifyQueue.Queue.RemoveOld` | cmd/slave/verify_queue.go:348-360 | Old finished rows are removed, no others |
| `VerifyQueue.AlwaysConsistent` | cmd/slave/verify_queue.go:138-408 | Over every interleaving: ids are never reused, two workers never own one row, an owned row is processing, average verify time never exceeds the maximum |
| `VerifyQueue.StepTransitions` | cmd/slave/verify_queue.go:166-277 | Status moves only pending, processing, verified or failed, each by the one step meant for it; cleanup never removes pending or processing rows |
| `VerifyQueue.RowsMoveForward` | cmd/slave/verify_queue.go:138-360 | Over whole runs rows only move forward, keep their share, and an id that is gone stays gone |
| `VerifyQueue.ClaimsInOrder` | cmd/slave/verify_queue.go:176-212 | No row is claimed twice, and of two rows waiting the earlier submitted is claimed first |
| `VerifyQueue.ClaimsFollowSubmission` | cmd/slave/verify_queue.go:138-212 | With submit times in order, claims follow submission order over the whole run, rows submitted in between included |
| `VerifyQueue.VerifiedHadProof` | cmd/slave/verify_queue.go:221-264 | Every verified row was completed by the worker owning it with the announced proof of work |
| `VerifyQueue.ClaimsAccounted` | cmd/slave/verify_queue.go:166-277 | Every claim ends up counted as verified or failed, or is still with a worker |
| `VerifyQueue.OutcomesCounted` | cmd/slave/verify_queue.go:221-277 | The verified and failed counters, with the outcomes yet to be reported, count exactly the completions that proved their share and those that did not |
| `VerifyQueue.NoRowStuck` | cmd/slave/verify_queue.go:166-277 | While updates succeed, a claimed row still in the table is with a busy worker or finished |
| `VerifyQueue.ClaimPossible` | cmd/slave/verify_queue.go:176-185 | A free worker can claim whenever a row is pending |
| `VerifyQueue.SubmitRules` | cmd/slave/verify_queue.go:138-150 | A submitted share waits under a new id |
| `VerifyQueue.ClaimRules` | cmd/slave/verify_queue.go:197-212 | A claimed row is being processed, by that worker, and nothing else changes |
| `VerifyQueue.CompleteRules` | cmd/slave/verify_queue.go:234-264 | A completed row gets its completion time and is verified if and only if the proof of work is the announced one, failed otherwise; only a failed update leaves it as it was |
| `VerifyQueue.ReportRules` | cmd/slave/verify_queue.go:384-408 | A report counts one outcome; the maximum is the larger duration, the average the rounded-down middle |
| `VerifyQueue.CleanupRules` | cmd/slave/verify_queue.go:348-360 | Cleanup removes exactly the finished rows completed before the cutoff |
| `Difficulty.Reverse` | template/template.go:78-82 | Reverses in place |
| `Difficulty.Reverse2` | template/template.go:83-89 | Reverses, but loses the middle byte of an odd length |
| `Difficulty.DiffToShortTarget` | template/template.go:46-59 | The four little-endian bytes of (2^32-1)/d |
| `Difficulty.DiffToTarget` | template/template.go:63-76 | Bytes whose little-endian value is (2^64-1)/d, padded to four |
| `Difficulty.HashToDiff` | template/template.go:99-109 | (2^256-1)/h, 0 for a hash with zero low 64 bits, a panic when it does not fit |
| `Difficulty.ShortTargetValue` | template/template.go:46-59 | The value of the four bytes |
| `Difficulty.ShortTargetConnection` | template/template.go:46-122 | The difficulty recovered from a short target is at least the one sent if and only if that fits in 32 bits, and encoding it again gives the same bytes |
| `Difficulty.ShortTargetAntitone` | template/template.go:46-59 | Larger difficulty, no larger target |
| `Difficulty.TargetHasEightBytesIff` | template/template.go:63-76 | The target has the promised eight bytes if and only if the difficulty is at most 255 |
| `Difficulty.TargetConnection` | template/template.go:63-136 | For those, the 64-bit analogue of the short target's connection |
| `Difficulty.HashReachesIff` | template/template.go:99-109 | For every hash: the panic happens if and only if h is below 2^192 and does not end in 64 zero bits; otherwise the check says whether h*d fits in 256 bits if and only if h does not end so or h*d does not fit |
| `Difficulty.HashReaches` | template/template.go:99-109 | A hash not ending in 64 zero bits reaches difficulty d if and only if h*d fits in 256 bits |
| `Difficulty.ZeroEndedHash` | template/template.go:99-103 | 2^192 is worth difficulty 2^64-1 and gets 0 |
| `Difficulty.TargetPasses` | template/template.go:63-109 | A hash whose top 64 bits are below the target for d passes the pool's check for d |
| `Difficulty.ShortTargetPasses` | template/template.go:46-109 | Likewise for the top 32 bits and the short target |
| `Nicehash.SharedJob.constructor` | cmd/slave/nicehash.go:31-39 | No template yet |
| `Nicehash.SharedJob.GetNicehashJob` | cmd/slave/nicehash.go:42-120 | New template, next byte, or a failed fetch that changes nothing; the blob is updated in place |
| `Nicehash.SharedJob.ClearNicehashJob` | cmd/slave/nicehash.go:121-126 | Forces a new template |
| `Nicehash.GrantsOrdered` | cmd/slave/nicehash.go:42-126 | Over every run with failed fetches and clears, no two successful calls share template generation and byte |
| `Nicehash.GrantsAreLater` | cmd/slave/nicehash.go:42-126 | Everything handed out later has a later template or a larger byte |
| `Nicehash.GrantsMatchTemplate` | cmd/slave/nicehash.go:85-117 | Every issued blob is its template except for a byte from 1 to 255 at index 42 |
| `Nicehash.GetRules` | cmd/slave/nicehash.go:46-117 | A call fails exactly if a new template is needed and cannot be fetched; a new template starts at byte 1, otherwise the byte grows by one; template, height and seed are those fetched |
| `Nicehash.ClearRules` | cmd/slave/nicehash.go:121-126 | After a clear the next call takes a new template |
| `Nicehash.OneTemplateServes` | cmd/slave/nicehash.go:46-117 | One template serves 255 miners, with the bytes 1 to 255 |
| `Nicehash.MinersDisjoint` | cmd/slave/conn.go:571-596 | Two miners on one template never have equal nonces or equal blobs accepted |
| `Connection.MinerConnection.constructor` | cmd/slave/conn.go:423-482 | The state after login |
| `Connection.MinerConnection.OnNewBlock` | cmd/slave/slave.go:182-211 | Job rotation and difficulty clamp; without a job the miner is kicked |
| `Connection.MinerConnection.OnSubmit` | cmd/slave/conn.go:517-789 | Outcome and new state of every submit, check by check; a found block whose hash cannot be obtained skips the retarget |
| `Connection.MinerConnection.Judge` | cmd/slave/conn.go:517-700 | The outcome: malformed, wrong job, wrong nonce, wrong hash, too low, kicked or credited |
| `Connection.MinerConnection.Retarget` | cmd/slave/conn.go:776-789 | The next difficulty from the bounded share time, in float64, with the clock read twice |
| `Connection.CreditsEarned` | cmd/slave/conn.go:517-701 | Over every run from login on, a share is credited only for one of the two jobs announced last, at the difficulty announced with it, and its hash reaches that |
| `Connection.SubmitCreditedIff` | cmd/slave/conn.go:517-712 | On a live connection a submit for one of the two jobs announced last appends exactly one credit, for that job at its announced difficulty, if and only if its nonce fits, h times that difficulty fits in 256 bits, a potential block is confirmed, and the penalty box allows it; otherwise nothing changes |
| `Connection.SubmitIgnored` | cmd/slave/conn.go:520-555 | A malformed submit or one for any other job changes nothing |
| `Connection.CheckRules` | cmd/slave/conn.go:571-700 | Exactly when a submit is refused as wrong nonce, low difficulty or wrong hash, unanswered, kicked, or credited, in terms of the hash's value |
| `Connection.LoginTracks` | cmd/slave/conn.go:423-482 | Login establishes that invariant |
| `Connection.CreditedJobUnique` | cmd/slave/conn.go:536-555 | With fresh job ids the credited job is determined by its id |
| `Connection.RetargetBounded` | cmd/slave/conn.go:776-789 | In float64, over any sequence of shares: NextDiff stays between whole bounds around its start and, up to one unit, a quarter to four times the job difficulties |
| `Connection.RetargetBoundedExactly` | cmd/slave/conn.go:776-789 | In exact arithmetic without the unit: between the least of its start and a quarter of the job difficulties and the greatest of its start and four times them |
| `Connection.EstimateRounded` | cmd/slave/conn.go:778-785 | One float64 estimate lies between a quarter of the job's difficulty and four times it, up to one unit |
| `Connection.RetargetRules` | cmd/slave/conn.go:776-786 | Without rounding: between a quarter of the target time and four times it, 7 next dt = 1000 t d + 6 old dt; below and above, the estimate is four times and a quarter of the difficulty |
| `Connection.RetargetAntitone` | cmd/slave/conn.go:776-786 | In float64 too, a longer share time never gives a larger difficulty |
| `Connection.SubmitRetargets` | cmd/slave/conn.go:726-789 | A credited share retargets, unless it is a block whose hash could not be obtained; nothing else does |
| `Connection.RetargetConverges` | cmd/slave/conn.go:776-789 | In exact arithmetic, while shares of one difficulty come exactly on time, each removes one seventh of NextDiff's distance to it |
| `Connection.EstimateWithin` | cmd/slave/conn.go:778-785 | One exact estimate lies between a quarter of the job's difficulty and four times it |
| `Connection.NewBlockDiffIff` | cmd/slave/slave.go:186-193 | Every new-block difficulty is at least MinDiff and strictly below network difficulty if and only if MinDiff is below it, MinDiff is not rounded down and network difficulty less one is not rounded up |
| `Connection.ClampRules` | cmd/slave/slave.go:186-193 | A NextDiff inside the range is kept and truncated, outside it the nearer bound is taken |
| `Connection.NewBlockRules` | cmd/slave/slave.go:182-211 | The current job becomes the last one and the offered one, at the clamped difficulty, the current |
| `Connection.LargeNetDiffReached` | cmd/slave/slave.go:186-193 | Above 2^53 the clamp can hand out the network difficulty itself |
| `DaemonPool.Pool.constructor` | cmd/slave/daemon_pool.go:30-67 | The created connections, starting at slot 0 |
| `DaemonPool.Pool.Get` | cmd/slave/daemon_pool.go:84-108 | The next slot's client, replaced if too old and a new one can be made; nothing for an empty pool |
| `DaemonPool.Pool.RecycleTick` | cmd/slave/daemon_pool.go:126-143 | One slot replaced per tick, in rotation |
| `DaemonPool.Pool.ExecuteWithRetry` | cmd/slave/daemon_pool.go:147-174 | The calls made and the result, as `Execution` says: consecutive slots, at most len+1 calls, all but the last connection errors |
| `DaemonPool.PicksBalanced` | cmd/slave/daemon_pool.go:84-143 | Over any run of picks and recycling, pick counts of any two slots differ by at most one |
| `DaemonPool.PicksByRounds` | cmd/slave/daemon_pool.go:84-108 | Every slot's count is the complete rounds plus one for the slots passed in the current round |
| `DaemonPool.PickRules` | cmd/slave/daemon_pool.go:92-107 | A pick moves one slot on and replaces exactly a too old connection, if another can be made |
| `DaemonPool.PickedIsFresh` | cmd/slave/daemon_pool.go:96-105 | A picked connection is too old only if none could be made |
| `DaemonPool.RoundReplacesAll` | cmd/slave/daemon_pool.go:126-143 | A full round of the recycler replaces every connection |
| `DaemonPool.AllSlotsTried` | cmd/slave/daemon_pool.go:147-174 | "All connections failed" is reported only after every slot met a connection error |
| `DaemonPool.SucceedsIff` | cmd/slave/daemon_pool.go:147-174 | The call succeeds if and only if one of the next len+1 picks answers with success and all before it with connection errors |
| `DaemonPool.WorkingSlotSuffices` | cmd/slave/daemon_pool.go:147-174 | One working slot is enough if every failure met is a connection error |
| `ShareCache.SlaveCache.constructor` | slave/slaveQueue.go:39-41 | An empty cache |
| `ShareCache.SlaveCache.CacheShareWithWorker` | slave/slaveQueue.go:44-57 | Count and difficulty are added under the composite key |
| `ShareCache.SlaveCache.ExtractWallet` | slave/slaveQueue.go:74-82 | The part before the last colon |
| `ShareCache.SlaveCache.Flush` | slave/slaveQueue.go:72-87 | Each entry becomes one packet, once, and the cache is empty |
| `ShareCache.WalletRecoveredIff` | slave/slaveQueue.go:49-82 | The wallet is recovered from its key if and only if the worker id has no colon and not both are empty |
| `ShareCache.KeyInjective` | slave/slaveQueue.go:49-82 | Different wallets and workers never share an entry |
| `ShareCache.RunConserves` | slave/slaveQueue.go:44-107 | Over any run of caching and flushing, count and difficulty per wallet and worker are conserved between shares, cache and packets |
| `Protocol.Receive` | cmd/master/handler.go:53-85 | The receive loop |
| `Protocol.FramesArrive` | slave/slaveClient.go:142-151 | Messages below 65536 bytes arrive, all of them and in order, with whatever follows |
| `Protocol.FrameArrivesIff` | slave/slaveClient.go:147-150 | A message arrives if and only if its length fits in the 16-bit prefix |
| `Protocol.PacketParses` | cmd/master/handler.go:95-120 | OnMessage decodes the four fields that were sent |
| `Protocol.PacketRejected` | cmd/master/handler.go:104-116 | Another packet type, or a wallet longer than the message, is no share |
| `Protocol.PacketsDelivered` | cmd/master/handler.go:53-120 | Every flushed packet reaches the master unchanged and in order |
| `Protocol.SharesReachMaster` | slave/slaveQueue.go:44-107 | From miner to master: what the master reads for a wallet and worker plus what waits in the cache is what was shared |
| `Protocol.StoreShares` | cmd/master/master.go:109-129 | One row per share whose insertion succeeds, each with the packet's whole difficulty, for the pool if the address is invalid |
| `Protocol.RowsCount` | cmd/master/master.go:117-129 | As many rows as insertions that succeed, all alike |
| `Protocol.StoredWorkIff` | cmd/master/master.go:116-129 | For any list of packets the work stored for a wallet and worker is at least what was sent, and equals it if and only if each of their packets held one share or no difficulty |
| `Protocol.RunStoredIff` | cmd/master/master.go:116-129 | The same from the miner's shares to the ledger, over any run of caching and flushing |
| `Protocol.StreamStoredIff` | cmd/master/handler.go:53-120 | And for what the master reads off the encrypted stream |
| `Protocol.FlushDoublesWork` | cmd/master/master.go:116-129 | Two equal shares and one flush store twice the work |

## Left out

- Exponent range of binary64: subnormal and overflowing values do not occur with the pool's quantities and are not modelled.
- Fused multiply-add: Go may fuse x*y + z on some architectures; every operation is rounded on its own here, as on amd64.
- UpdaterExact.TransferConserved: exact arithmetic; Updater.TransferWithin is the float64 counterpart.
- Updater.TransferWithin: amounts below 2^51; for fees that are no whole percentage no exact condition for an excess of one is given.
- Pplns.PercentagesSumToOne: exact arithmetic; Pplns.PercentagesSumNearOne is the float64 counterpart. Both only for totals below 2^64, because the code's counters wrap beyond that.
- Connection.RetargetBoundedExactly: exact arithmetic; Connection.RetargetBounded is the float64 counterpart.
- Connection.RetargetConverges: exact arithmetic.
- Connection.EstimateWithin: exact arithmetic; Connection.EstimateRounded is the float64 counterpart.
- Distribution.RewardConserved: rewards below 2^51; from there to the overpaid 3232485603750322 no claim is made in either direction.
- Distribution.NetDivided: net rewards below 2^51, as above.
- The luck adjustment of the PPLNS window (cmd/master/pplns.go, OnBlockFoundPPLNS): whatever value it leaves is clamped on the next use, and the results hold for every value.
- Withdraw.Master.Withdraw: runs that overlap; the program can start a second run in a goroutine before the first ends.
- SQL text, SQLite and schema creation: tables are maps with the contract of the statements used.
- Encryption and checksums: an inverse pair of functions adding 40 bytes; address validity is a parameter.
- Wallet and daemon RPC, sockets, TLS, JSON, hex encoding, certificates and signals: their outcomes are parameters.
- The P2Pool branch, login parsing and connection score of cmd/slave/conn.go, what a found block sends to the master, and the random choice that sends a few shares to the fee address.
- LastShareTime in the penalty box and started_at, verify_duration and node_used in the queue: written and never read by the modelled code.
- The codec of AddrInfo, Share and WorkerInfo and the 16-, 32- and 64-bit fixed-width fields: the same field operations, without nesting.
- Overflow of time.Duration: times and durations are unbounded integers.
- Daemon pool: Close, and ExecuteWithRetry interleaved with other callers of Get.
- HTTP API, statistics collector, hashrate charts, tools and migration scripts.
