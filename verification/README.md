# Chainlink log-poll tester, modelled in Dafny

`Tester.go` is a small HTTP service that exercises a Chainlink-style external
initiator on an EVM chain. `/createJobs` registers three jobs, and for each job
it builds an `eth_getLogs` log filter. `/triggerJob1`, `/triggerJob2` and
`/triggerJob3` each start a poller. The poller wraps the stored filter in a
JSON-RPC 2.0 request and posts it to a node forever.

This project models the deterministic parts of that service and proves what
they compute:

- `gotypes.dfy` (`GoTypes`): Go bytes and byte strings, `make`'s zero-filled
  slices, and option and result values.
- `hex.dfy` (`Hex`): hexadecimal text and the fixed-width words (`common.Hash`,
  `common.Address`) the go-ethereum and Chainlink helpers build from it.
  - The helpers are `hexutil.Encode`, `common.FromHex` (with `hex.DecodeString`'s
    partial decode), `HexToHash`, `HexToAddress`, `RemoveHexPrefix` and
    `AddHexPrefix`.
  - Each helper is modelled by its visible effect.
- `topic.dfy` (`Topic`): `StringToBytes32`, the pad, hex-encode, cut and decode
  pipeline that turns a job identifier into a topic word.
  - It is proved equal to the `bytes32` layout of the Solidity ABI: the first 32
    bytes of the identifier, then zero bytes up to 32.
- `address.dfy` (`AddressNormalisation`): `strings.Index`, `strings.Replace(…, 1)`,
  and the `xdc` → `0x` rewriting of watched contract addresses.
- `filter.dfy` (`Filter`): the `filterQuery` record and `createEvmFilterQuery`.
  - The builder is modelled as a method with the address loop, proved against a
    specification function.
  - Topic matching follows the rules written on `filterQuery.Topics`.
- `jsonrpc.dfy` (`JsonRpc`): the `eth_getLogs` request envelope, and the HTTP
  status rule of `sendPostRequest`.
- `registry.dfy` (`Registry`): the package variables `job1`–`job3`, `jobArray`,
  `FQA` and `triggerCount`.
  - They are modelled as the class `JobRegistry`, whose methods are the
    `/createJobs` and `/triggerJobN` handlers, as written.
  - The handlers' invariant is that after `n` calls `jobArray` and `FQA` hold
    `3n` entries, and every stored filter is job 1's.

The Keccak-256 hash of the `OracleRequest` event signature is not computed.
It is the parameter `eventTopic` of the filter builder and a constant of the
registry, set by its constructor.

## Model

| member | source | states |
|---|---|---|
| Hex.Digit | Tester.go:239 | the encoder writes a hex digit whose value is the nibble it encodes |
| Hex.Encode | Tester.go:239 | `hexutil.Encode`'s digits: two per byte, all hex digits |
| Hex.Decode | Tester.go:246 | decoding yields at most one byte per two digits of text |
| Hex.DecodeEncode | Tester.go:239-246 | decoding the hex text of any byte string gives back that byte string |
| Hex.DecodeLength | Tester.go:246 | hex text of even length decodes to exactly half as many bytes |
| Hex.EncodePrefix | Tester.go:241-243 | the first `2k` digits of the encoding are the encoding of the first `k` bytes |
| Hex.EncodeAppend | Tester.go:238-239 | encoding distributes over concatenation |
| Hex.EncodeZeros | Tester.go:238-239 | zero padding bytes encode to `0` digits only |
| Hex.EncodeWithPrefix | Tester.go:239 | `hexutil.Encode` writes `0x` and then two hex digits per byte, and `FromHex` reads that text back as the same bytes |
| Hex.RemoveHexPrefix | Tester.go:239 | a `0x`/`0X` prefix is dropped, and any other text is left as it is |
| Hex.AddHexPrefix | Tester.go:245 | the result always starts with a hex prefix; text already prefixed is unchanged, other text gets `0x` in front |
| Hex.FromHex | Tester.go:246 | one `0x`/`0X` prefix is dropped, text of odd length gets a `0` in front, and the rest is decoded |
| Hex.FitWord | Tester.go:246 | the word has the fixed width; short input is left-padded with zeros, long input keeps its last bytes |
| Hex.HexToHash | Tester.go:246 | the bytes `FromHex` reads, cropped from the left when longer than 32 and left-padded with zeros when shorter |
| Hex.HexToAddress | Tester.go:217 | never fails; the bytes `FromHex` reads, cropped from the left when longer than 20 and left-padded with zeros when shorter |
| Hex.HexToAddressOfHexText | Tester.go:217 | hex text of an even number of digits, at most 40, with or without `0x`, gives its bytes right-aligned in the address |
| Hex.HexToHashOfEncoding | Tester.go:245-246 | `0x` followed by the hex text of a 32-byte word reads back as that word |
| Topic.RightPadBytes | Tester.go:238 | zeros are appended up to the width only when the input is shorter; the input is kept as a prefix |
| Topic.HexCutIsByteCut | Tester.go:238-243 | cutting the hex text of the padded bytes to 64 digits equals encoding the first 32 bytes |
| Topic.StringToBytes32 | Tester.go:237-247 | the pad, encode, cut and decode pipeline yields the ABI `bytes32` layout: the first 32 bytes of the identifier, then zeros |
| Topic.ShortIdentifierLayout | Tester.go:237-246 | an identifier of at most 32 bytes is kept whole and followed by zeros |
| Topic.EmptyIdentifierIsZeroWord | Tester.go:237-246 | the empty identifier gives the all-zero word |
| Topic.LongIdentifierTruncated | Tester.go:241-243 | an identifier longer than 32 bytes gives its first 32 bytes, the same word as its 32-byte prefix |
| Topic.ShortWordHexText | Tester.go:238-243 | the 64 hex digits of a padded short identifier are its own digits followed by `0` digits |
| Topic.ShortIdentifierHexText | Tester.go:238-243 | the same, stated about the topic word the pipeline returns |
| Topic.ShortIdentifiersInjective | Tester.go:237-247 | two identifiers of equal length of at most 32 bytes share a topic word exactly when they are equal |
| AddressNormalisation.IndexFrom | Tester.go:216 | the search finds the first occurrence of the pattern at or after a position, or reports that there is none |
| AddressNormalisation.Index | Tester.go:216 | `strings.Index`: the first occurrence of the pattern, or none |
| AddressNormalisation.ReplaceFirst | Tester.go:216 | `strings.Replace(s, pat, rep, 1)`: text without `pat` is returned unchanged; otherwise the first occurrence of `pat` becomes `rep` and everything before and after it is kept |
| AddressNormalisation.NormaliseAddress | Tester.go:216 | text without `xdc` is left unchanged; otherwise only the first `xdc` becomes `0x`, and everything before and after it, later `xdc`s included, is kept |
| AddressNormalisation.XdcPrefixReplaced | Tester.go:216 | `xdc` + H becomes `0x` + H |
| AddressNormalisation.HexAddressHasNoXdc | Tester.go:216 | `0x` followed by hex digits not starting with `dc` contains no `xdc` |
| AddressNormalisation.XdcAndHexPrefixAgree | Tester.go:215-217 | as written, `xdc` + H and `0x` + H normalise to the same text when H does not start with `dc` |
| AddressNormalisation.HexDcAddressBecomesZero | Tester.go:216-217 | as written, `0xdc…` is rewritten to `00x…`, which decodes to the zero address |
| AddressNormalisation.HexDcRewritten | Tester.go:216 | the first `xdc` in `0xdc…` starts at the `x`, so the text becomes `00x…` |
| AddressNormalisation.ZeroZeroXIsZeroAddress | Tester.go:217 | `00x…` reads as the zero address |
| AddressNormalisation.HexDcAddressLeadingByte | Tester.go:217 | `0xdc` + 38 hex digits reads as an address whose first byte is `0xdc` |
| AddressNormalisation.XdcDcAddressKeepsLeadingByte | Tester.go:216-217 | `xdc` + `dc` + 38 hex digits decodes to an address whose first byte is `0xdc` |
| AddressNormalisation.XdcAndHexPrefixDisagreeOnDc | Tester.go:215-217 | as written, the `xdc` and `0x` spellings of an address with digits starting `dc` give different addresses |
| AddressNormalisation.NormaliseXdcPrefix | Tester.go:216 | corrected rewrite: a leading `xdc` becomes `0x`, and any other text is unchanged |
| AddressNormalisation.XdcPrefixNormalisationAgrees | Tester.go:215-217 | with the corrected rewrite, both spellings of every address give the same `0x` text |
| AddressNormalisation.XdcPrefixNormalisationMatchesSource | Tester.go:216 | the corrected rewrite agrees with `strings.Replace` on text that starts with `xdc` or contains none |
| Filter.CreateEvmFilterQuery | Tester.go:213-235 | the builder's loop, rewriting each address with `strings.Replace` as line 216 does, and its record construction give exactly the specified filter |
| Filter.EvmFilterQuery | Tester.go:213-235 | no block hash and an empty block range; one address per input string, in order, each the address of that string after line 216's first-occurrence rewrite; exactly two topic positions: the event hash, then the job's ABI word |
| Filter.EvmFilterQueryIntendedShape | Tester.go:213-235 | the corrected builder differs from the one written only in its addresses, each rewritten by the leading-`xdc` rule |
| Filter.EvmFilterMatchesJobLogs | Tester.go:24-35 | a log matches the filter's topics exactly when it carries the event hash first and the job's word second |
| Filter.SameNormalisedAddressesSameFilter | Tester.go:214-218 | address lists that `strings.Replace` rewrites alike give equal filters |
| Filter.XdcAndHexAddressSameFilter | Tester.go:214-218 | as written, watching `xdc` + H or `0x` + H gives the same filter when H is hex text not starting with `dc` |
| Filter.XdcAndHexAddressSameIntendedFilter | Tester.go:214-218 | with the corrected rewrite, watching `xdc` + H or `0x` + H gives the same filter for every H |
| Filter.IntendedFilterMatchesAsWritten | Tester.go:215-217 | the corrected builder and the one written give the same filter when every address starts with `xdc` or contains none |
| Filter.DcAddressFilterDiffers | Tester.go:215-217 | as written, `0xdc` + 38 hex digits gives the zero address in the filter; the corrected builder keeps first byte `0xdc` |
| JsonRpc.GetLogsRequest | Tester.go:134-139 | every request has version `2.0`, id `1`, method `eth_getLogs`, no error and no result, and its params give back exactly the filter text |
| JsonRpc.GetLogsRequestInjective | Tester.go:134-139 | different filters give different requests |
| JsonRpc.CheckStatus | Tester.go:206-210 | a status from 100 to 599 is accepted exactly when it is in class 2xx or 3xx, and then the body is passed on unchanged; codes outside 100–599 are refused |
| Registry.JobIdsDistinct | Tester.go:74-90 | the three job identifiers are 32 bytes long and pairwise different |
| Registry.JobTopicsDistinct | Tester.go:74-90 | the three jobs have three different topic words |
| Registry.OnlyJob1IsPolled | Tester.go:78-96 | as written, the stored filter matches a job's log exactly when the job is job 1 |
| Registry.IntendedJob | Tester.go:90-93 | corrected job table: job 3 also polls up to `latest` |
| Registry.IntendedJobFilter | Tester.go:86-96 | the corrected filter of a job watches the job's addresses, each rewritten by the leading-`xdc` rule, over the job's block range, with the topics of the filter written |
| Registry.IntendedFilters | Tester.go:86-96 | corrected filters: three of them, filter `k` built from job `k` |
| Registry.IntendedFilterOfJob | Tester.go:86-96 | corrected filter `k` watches job `k`'s oracle address, rewritten by the leading-`xdc` rule, over job `k`'s block range, up to `latest` |
| Registry.IntendedTriggerPollsOwnJob | Tester.go:86-96 | with the corrected filters, trigger `k` matches job `k`'s logs and no other job's |
| Registry.CreatedJobsLayout | Tester.go:98-100 | after `n` calls `jobArray` holds `3n` jobs, job `i` being registered job `i mod 3` |
| Registry.StoredFiltersLayout | Tester.go:101-103 | after `n` calls `FQA` holds `3n` filters, all of them job 1's |
| Registry.JobRegistry.constructor | Tester.go:65-70 | the package variables start at their zero values |
| Registry.JobRegistry.HandleCreateJobs | Tester.go:72-112 | the jobs get their fixed values, and job 3's `toBlock` keeps its old value; three jobs and three job-1 filters are appended; the invariant holds |
| Registry.JobRegistry.TriggerJob1 | Tester.go:113-116 | the count goes up by one; if `FQA[0]` exists, the poller gets it with the new count, and it is job 1's filter |
| Registry.JobRegistry.TriggerJob2 | Tester.go:117-120 | the same with `FQA[1]`, which is job 1's filter too |
| Registry.JobRegistry.TriggerJob3 | Tester.go:121-124 | the same with `FQA[2]`, which is job 1's filter too |

## Left out

- `main`, the route registration and `ListenAndServe` (Tester.go:47-56) are left out: server plumbing.
- The polling loop of `triggerJob` is left out except for the envelope. That covers the endless `for`, the sleeps, the goroutine start and the logging (Tester.go:126-150). It has no result and does not terminate.
  - The trigger methods return the filter and count they would hand to the poller.
- The network side of `sendPostRequest` is left out: the request, `client.Do`, reading the body and the sleep (Tester.go:190-205, 210). Only the status rule is modelled. The status code and body are parameters.
- `json.Marshal` of the filter and the envelope, and `json.Unmarshal` of the reply, are left out (Tester.go:129-133, 140, 147): reflection-based serialisation.
  - The marshalled filter is opaque text in the envelope.
  - The marshal error branch only logs, so it is not modelled.
- `utils.MustHash`, the Keccak-256 hash of the event signature (Tester.go:223), is a foreign cryptographic call. It is the parameter `eventTopic`.
- The go-ethereum and Chainlink helpers are modelled by their visible effect on the inputs the tester gives them, not by their code.
- The commented-out `handleRoot` (Tester.go:152-188) is not part of this model.
- No invalid-address error is modelled, because the code has none: `common.HexToAddress` (Tester.go:217) never fails. Undecodable text yields the bytes decoded before the first bad digit pair, fitted into 20 bytes.
- No JSON-RPC response decoder is modelled, because the code has none: Tester.go:146-148 unmarshal the reply and print only `result`, never `error`.
- Registry.JobRegistry.TriggerJob1: does not model Go's wrap-around of `int` in `triggerCount`. Overflow would need 2^63 requests. The same goes for `TriggerJob2` and `TriggerJob3`.
- Registry.JobRegistry.TriggerJob1: does not model Go's index panic directly. It is modelled as a `None` result after the count has gone up, because Go panics after the increment and `net/http` recovers the handler. The same goes for `TriggerJob2` and `TriggerJob3`.
- Concurrent handler calls are left out. Go runs them on separate goroutines, unsynchronised. Each handler is modelled as one atomic step.
- Go's nil slice and empty slice are not distinguished. `FilterQuery` fields that are nil in Go are the empty sequence, or `None` for the pointer.
- Registry.IntendedFilters: its own contract states only the length. What each filter is and what it matches are stated by `IntendedFilterOfJob` and `IntendedTriggerPollsOwnJob`.

## Findings

| source | as written | input that shows it | evidently intended | confidence | as-written member | corrected member |
|---|---|---|---|---|---|---|
| Tester.go:216 | `strings.Replace(a, "xdc", "0x", 1)` rewrites the first `xdc` anywhere in the text, including the one formed by `0x` followed by digits `dc` | `"0xdc"` followed by 38 hex digits becomes `"00x"` followed by the 38 digits, which decodes to the zero address, while the `xdc` spelling of the same address keeps first byte `0xdc` | only a leading `xdc` prefix is replaced by `0x` | not executed | AddressNormalisation.XdcAndHexPrefixDisagreeOnDc | AddressNormalisation.XdcPrefixNormalisationAgrees |
| Tester.go:86-96 | `q2` and `q3` are built from `job1`'s identifier, address and range, and line 93 sets `job1.toBlock` | `/createJobs` then `/triggerJob2`: the poller's filter matches job 1's request logs and never job 2's | filter `k` is built from job `k`, and job 3's `toBlock` is `"latest"` | not executed | Registry.OnlyJob1IsPolled | Registry.IntendedTriggerPollsOwnJob |

The filter builder and the registry class follow the code as written.
The corrected builder `Filter.EvmFilterQueryIntended` applies the leading-`xdc` rule. The corrected job table and filters in `Registry` use it; they sit beside the class.
