/** The log filter the tester sends with `eth_getLogs`, and the builder
    `createEvmFilterQuery` that fills in its addresses and topics. */
module Filter {
  import opened GoTypes
  import opened Hex
  import opened Topic
  import opened AddressNormalisation

  /** `filterQuery`. Go's nil `BlockHash` pointer is `None`, and the empty
      block-range strings mean "from genesis" and "up to the latest block". */
  datatype FilterQuery = FilterQuery(
    blockHash: Option<Hash>,
    fromBlock: GoString,
    toBlock: GoString,
    addresses: seq<Address>,
    topics: seq<seq<Hash>>)

  /** The record `createEvmFilterQuery` returns once its addresses are
      decoded: no block hash, an empty block range, and two topic positions
      holding the event signature and the job's topic word. `eventTopic`
      stands for the Keccak-256 hash of the `OracleRequest` event signature,
      which is not computed here. */
  function JobLogFilter(eventTopic: Hash, jobid: GoString, addresses: seq<Address>): FilterQuery
  {
    FilterQuery(None, [], [], addresses, [[eventTopic], [StringToBytes32(jobid)]])
  }

  /** The filter `createEvmFilterQuery` returns: no block hash, an empty
      block range, the addresses in the order given, each rewritten by
      `strings.Replace` as line 216 writes it, and exactly two topic
      positions with one hash each, the second being the ABI word of the job
      identifier. */
  function EvmFilterQuery(eventTopic: Hash, jobid: GoString, strAddresses: seq<GoString>): (q: FilterQuery)
    ensures q.blockHash == None && q.fromBlock == [] && q.toBlock == []
    ensures |q.addresses| == |strAddresses|
    ensures forall i | 0 <= i < |strAddresses| :: q.addresses[i] == HexToAddress(NormaliseAddress(strAddresses[i]))
    ensures q.topics == [[eventTopic], [LeftAligned32(jobid)]]
  {
    JobLogFilter(eventTopic, jobid,
      seq(|strAddresses|, i requires 0 <= i < |strAddresses| => HexToAddress(NormaliseAddress(strAddresses[i]))))
  }

  /** The same builder with the corrected rewrite, which replaces only a
      leading `xdc`. */
  function EvmFilterQueryIntended(eventTopic: Hash, jobid: GoString, strAddresses: seq<GoString>): FilterQuery
  {
    JobLogFilter(eventTopic, jobid,
      seq(|strAddresses|, i requires 0 <= i < |strAddresses| => HexToAddress(NormaliseXdcPrefix(strAddresses[i]))))
  }

  /** `createEvmFilterQuery`: the address loop, then the two topic positions. */
  method CreateEvmFilterQuery(eventTopic: Hash, jobid: GoString, strAddresses: seq<GoString>)
    returns (q: FilterQuery)
    ensures q == EvmFilterQuery(eventTopic, jobid, strAddresses)
  {
    var addresses: seq<Address> := [];
    for k := 0 to |strAddresses|
      invariant |addresses| == k
      invariant forall i | 0 <= i < k :: addresses[i] == HexToAddress(NormaliseAddress(strAddresses[i]))
    {
      var b := NormaliseAddress(strAddresses[k]);
      addresses := addresses + [HexToAddress(b)];
    }
    var topics := [[eventTopic], [StringToBytes32(jobid)]];
    q := FilterQuery(None, [], [], addresses, topics);
  }

  /** The corrected builder differs from the one written only in its
      addresses, each rewritten by `NormaliseXdcPrefix`. */
  lemma EvmFilterQueryIntendedShape(eventTopic: Hash, jobid: GoString, strAddresses: seq<GoString>)
    ensures var q := EvmFilterQueryIntended(eventTopic, jobid, strAddresses);
      && q == EvmFilterQuery(eventTopic, jobid, strAddresses).(addresses := q.addresses)
      && |q.addresses| == |strAddresses|
      && (forall i | 0 <= i < |strAddresses| :: q.addresses[i] == HexToAddress(NormaliseXdcPrefix(strAddresses[i])))
  {
  }

  /** Topic matching of `eth_getLogs` (the comment on `filterQuery.Topics`):
      the filter's positions match a prefix of the log's topics, an empty
      position matches anything, and a non-empty one matches any of its hashes. */
  predicate TopicsMatch(filter: seq<seq<Hash>>, logTopics: seq<Hash>) {
    |filter| <= |logTopics| &&
    forall i | 0 <= i < |filter| :: filter[i] == [] || logTopics[i] in filter[i]
  }

  /** A log matches the builder's topics exactly when it carries the event
      signature first and the job's ABI word second; further topics are free. */
  lemma EvmFilterMatchesJobLogs(eventTopic: Hash, jobid: GoString, strAddresses: seq<GoString>, logTopics: seq<Hash>)
    ensures TopicsMatch(EvmFilterQuery(eventTopic, jobid, strAddresses).topics, logTopics)
        <==> |logTopics| >= 2 && logTopics[0] == eventTopic && logTopics[1] == LeftAligned32(jobid)
  {
    var t := EvmFilterQuery(eventTopic, jobid, strAddresses).topics;
    if TopicsMatch(t, logTopics) {
      assert logTopics[0] in t[0] && logTopics[1] in t[1];
    }
  }

  /** Address strings that `strings.Replace` rewrites alike give the same
      filter. */
  lemma SameNormalisedAddressesSameFilter(eventTopic: Hash, jobid: GoString, xs: seq<GoString>, ys: seq<GoString>)
    requires |xs| == |ys|
    requires forall i | 0 <= i < |xs| :: NormaliseAddress(xs[i]) == NormaliseAddress(ys[i])
    ensures EvmFilterQuery(eventTopic, jobid, xs) == EvmFilterQuery(eventTopic, jobid, ys)
  {
    var a := EvmFilterQuery(eventTopic, jobid, xs).addresses;
    var b := EvmFilterQuery(eventTopic, jobid, ys).addresses;
    assert forall i | 0 <= i < |xs| :: a[i] == b[i];
  }

  /** As written, watching `xdc` + H or `0x` + H gives the same filter when
      the hex digits H do not start with `dc`. */
  lemma XdcAndHexAddressSameFilter(eventTopic: Hash, jobid: GoString, h: GoString)
    requires IsHexText(h)
    requires !(|h| >= 2 && h[0] == 100 && h[1] == 99)
    ensures EvmFilterQuery(eventTopic, jobid, [Xdc + h]) == EvmFilterQuery(eventTopic, jobid, [HexPrefix + h])
  {
    XdcAndHexPrefixAgree(h);
    SameNormalisedAddressesSameFilter(eventTopic, jobid, [Xdc + h], [HexPrefix + h]);
  }

  /** With the corrected rewrite, watching `xdc` + H or `0x` + H gives the same
      filter for every H. */
  lemma XdcAndHexAddressSameIntendedFilter(eventTopic: Hash, jobid: GoString, h: GoString)
    ensures EvmFilterQueryIntended(eventTopic, jobid, [Xdc + h]) == EvmFilterQueryIntended(eventTopic, jobid, [HexPrefix + h])
  {
    XdcPrefixNormalisationAgrees(h);
    var a := EvmFilterQueryIntended(eventTopic, jobid, [Xdc + h]).addresses;
    var b := EvmFilterQueryIntended(eventTopic, jobid, [HexPrefix + h]).addresses;
    assert a[0] == b[0];
  }

  /** The corrected builder and the one written give the same filter whenever
      every address starts with `xdc` or holds no `xdc` at all. */
  lemma IntendedFilterMatchesAsWritten(eventTopic: Hash, jobid: GoString, xs: seq<GoString>)
    requires forall i | 0 <= i < |xs| :: (|xs[i]| >= 3 && xs[i][..3] == Xdc) || forall j :: !OccursAt(xs[i], Xdc, j)
    ensures EvmFilterQueryIntended(eventTopic, jobid, xs) == EvmFilterQuery(eventTopic, jobid, xs)
  {
    var a := EvmFilterQueryIntended(eventTopic, jobid, xs).addresses;
    var b := EvmFilterQuery(eventTopic, jobid, xs).addresses;
    forall i | 0 <= i < |xs|
      ensures a[i] == b[i]
    {
      XdcPrefixNormalisationMatchesSource(xs[i]);
    }
  }

  /** As written, the builder keeps the zero address for `0xdc` followed by
      hex digits, where the corrected builder keeps the address itself. */
  lemma DcAddressFilterDiffers(eventTopic: Hash, jobid: GoString, r: GoString)
    requires IsHexText(r) && |r| == 38
    ensures EvmFilterQuery(eventTopic, jobid, [HexPrefix + [100, 99] + r]).addresses == [Zeros(AddressLength)]
    ensures EvmFilterQueryIntended(eventTopic, jobid, [HexPrefix + [100, 99] + r]).addresses[0][0] == 0xdc
  {
    var a := HexPrefix + [100, 99] + r;
    assert EvmFilterQuery(eventTopic, jobid, [a]).addresses == [Zeros(AddressLength)] by {
      HexDcAddressBecomesZero(r);
    }
    var q := EvmFilterQueryIntended(eventTopic, jobid, [a]);
    assert q.addresses[0] == HexToAddress(NormaliseXdcPrefix(a));
    assert NormaliseXdcPrefix(a) == a by {
      assert a[0] != Xdc[0];
    }
    HexDcAddressLeadingByte(r);
  }
}
