/**
 * The execution-engine channel stub a beacon node uses in place of a real
 * execution client. With transition emulation it plays the proof-of-work
 * side of the Bellatrix merge transition: on its first use after Bellatrix
 * activates, it prepares a terminal block and that block's parent. It then
 * answers chain-head and block queries so that the beacon node sees the
 * terminal block either once a terminal total difficulty (TTD) is reached
 * (here, 10 seconds after activation) or when the node asks for a configured
 * terminal block hash (TBH). Besides that it hands out payload ids for fork
 * choice updates, builds payloads from the cached attributes, and unblinds
 * the one payload last handed out as a header.
 *
 * Hashes are 32-byte values read as numbers. Time is the clock reading the
 * caller passes in (`now`, in seconds). Randomly generated payload fields
 * are parameters. Whether a slot is at Bellatrix or later is a boolean
 * parameter.
 */
module ExecutionEngineStub {
  import opened Wrappers
  import opened Unsigned
  import opened ByteOrder
  import opened Serializers

  const BYTES32_LIMIT: int := 0x1_0000_0000_0000_0000_0000_0000_0000_0000_0000_0000_0000_0000_0000_0000_0000_0000

  /** A 32-byte hash (Bytes32), as the big-endian number it spells. */
  type Bytes32 = x: int | 0 <= x < BYTES32_LIMIT

  /** The parent hash of the emulated terminal block, and the emulated parent's own hash. */
  const TERMINAL_BLOCK_PARENT_HASH: Bytes32 := 0

  /** The terminal block hash used when the transition goes by terminal total difficulty. */
  const TTD_TERMINAL_BLOCK_HASH: Bytes32 := 1

  /** Seconds between Bellatrix activation and reaching the terminal total difficulty. */
  const TRANSITION_DELAY_AFTER_BELLATRIX_ACTIVATION: nat := 10

  /** The payload-id cache holds at most this many entries. */
  const PAYLOAD_CACHE_CAPACITY: nat := 10

  datatype PowBlock = PowBlock(blockHash: Bytes32, parentHash: Bytes32, totalDifficulty: nat, blockTimestamp: nat)

  /** The emulated terminal block's parent: hash zero, parent zero, no difficulty, time zero. */
  const TERMINAL_BLOCK_PARENT: PowBlock := PowBlock(TERMINAL_BLOCK_PARENT_HASH, 0, 0, 0)

  datatype TransitionConfiguration =
    TransitionConfiguration(terminalTotalDifficulty: nat, terminalBlockHash: Bytes32, terminalBlockNumber: uint64)

  datatype PayloadAttributes = PayloadAttributes(timestamp: nat, prevRandao: Bytes32, feeRecipient: nat)

  /** What a payload id stands for: the head it builds on and the attributes it was requested with. */
  datatype HeadAndAttributes = HeadAndAttributes(head: Bytes32, attributes: PayloadAttributes)

  datatype ExecutionPayload = ExecutionPayload(
    parentHash: Bytes32, feeRecipient: nat, stateRoot: Bytes32, receiptsRoot: Bytes32,
    prevRandao: Bytes32, blockNumber: nat, gasLimit: nat, gasUsed: nat, timestamp: nat,
    baseFeePerGas: nat, blockHash: Bytes32)

  /** A payload's header: the payload's own fields, with the transactions replaced by their root. */
  datatype ExecutionPayloadHeader = ExecutionPayloadHeader(
    parentHash: Bytes32, feeRecipient: nat, stateRoot: Bytes32, receiptsRoot: Bytes32,
    prevRandao: Bytes32, blockNumber: nat, gasLimit: nat, gasUsed: nat, timestamp: nat,
    baseFeePerGas: nat, blockHash: Bytes32)

  datatype ExecutionPayloadStatus = VALID | INVALID | SYNCING | ACCEPTED | INVALID_BLOCK_HASH

  datatype PayloadStatus =
    PayloadStatus(status: ExecutionPayloadStatus, latestValidHash: Option<Bytes32>, validationError: Option<string>)

  /** The status reported when nothing else was configured. */
  const PAYLOAD_STATUS_VALID: PayloadStatus := PayloadStatus(VALID, None, None)

  datatype ForkChoiceUpdatedResult = ForkChoiceUpdatedResult(payloadStatus: PayloadStatus, payloadId: Option<Bytes>)

  /** The body of a signed beacon block, as far as unblinding looks at it. */
  datatype BeaconBlockBody = BlindedBody(executionPayloadHeader: ExecutionPayloadHeader) | FullBody

  /** The stub's exceptions and failed futures. */
  datatype StubError =
    | PowBlockNotSupported        // getPowBlock for a hash other than the two emulated blocks
    | PowChainHeadNotSupported    // getPowChainHead without transition emulation
    | PayloadNotBellatrix         // getPayload at a slot before Bellatrix
    | PayloadIdNotFound           // getPayload for an id that is not in the cache
    | PayloadIdTooLarge           // the payload counter no longer fits an unsigned 32-bit int
    | BlindedBlockNotBellatrix    // proposeBlindedBlock at a slot before Bellatrix
    | BlockNotBlinded             // proposeBlindedBlock with a full block
    | NoPayloadHeaderRequested    // proposeBlindedBlock before any getPayloadHeader
    | PayloadHeaderMismatch       // the block's header is not the one last handed out

  /** The emulated transition: the terminal block hash, the time the TTD is reached, and the two blocks. */
  datatype TransitionBlocks =
    TransitionBlocks(terminalBlockHash: Bytes32, transitionTime: nat, terminalBlockParent: PowBlock, terminalBlock: PowBlock)

  /** What prepared transition blocks always look like. */
  ghost predicate WellFormed(t: TransitionBlocks)
  {
    && t.terminalBlockHash != TERMINAL_BLOCK_PARENT_HASH
    && t.terminalBlockParent == TERMINAL_BLOCK_PARENT
    && t.terminalBlock.blockHash == t.terminalBlockHash
    && t.terminalBlock.parentHash == t.terminalBlockParent.blockHash
    && t.terminalBlock.blockTimestamp == t.transitionTime
  }

  /**
   * The transition blocks prepared at `activationTime`. A transition
   * configuration received from the consensus side wins over the spec's
   * Bellatrix configuration. A zero terminal block hash means emulation by
   * terminal total difficulty: the terminal block gets hash 1 and is reached
   * 10 seconds after activation. A non-zero hash means emulation by terminal
   * block hash: the terminal block carries that hash and time plays no part.
   * Either way the terminal block is a child of the zero-hash parent and
   * carries the configured terminal total difficulty.
   */
  function TransitionFor(received: Option<TransitionConfiguration>, specTerminalBlockHash: Bytes32,
                         specTerminalTotalDifficulty: nat, activationTime: nat): (t: TransitionBlocks)
    ensures WellFormed(t)
    ensures activationTime <= t.transitionTime <= activationTime + TRANSITION_DELAY_AFTER_BELLATRIX_ACTIVATION
    ensures var (hash, ttd) := if received.Some? then (received.value.terminalBlockHash, received.value.terminalTotalDifficulty)
                               else (specTerminalBlockHash, specTerminalTotalDifficulty);
      && t.terminalBlock.totalDifficulty == ttd
      && (hash == 0 ==> t.terminalBlockHash == TTD_TERMINAL_BLOCK_HASH
                        && t.transitionTime == activationTime + TRANSITION_DELAY_AFTER_BELLATRIX_ACTIVATION)
      && (hash != 0 ==> t.terminalBlockHash == hash && t.transitionTime == activationTime)
  {
    var configHash := if received.Some? then received.value.terminalBlockHash else specTerminalBlockHash;
    var ttd := if received.Some? then received.value.terminalTotalDifficulty else specTerminalTotalDifficulty;
    var (hash, time) :=
      if configHash == 0 then (TTD_TERMINAL_BLOCK_HASH, activationTime + TRANSITION_DELAY_AFTER_BELLATRIX_ACTIVATION)
      else (configHash, activationTime);
    TransitionBlocks(hash, time, TERMINAL_BLOCK_PARENT, PowBlock(hash, TERMINAL_BLOCK_PARENT_HASH, ttd, time))
  }

  /**
   * The answer to a transition configuration exchange: the configuration
   * itself when its terminal block hash is zero; otherwise the same terminal
   * total difficulty and hash, with terminal block number 1.
   */
  function ExchangeResponse(c: TransitionConfiguration): (r: TransitionConfiguration)
    ensures r.terminalTotalDifficulty == c.terminalTotalDifficulty
    ensures r.terminalBlockHash == c.terminalBlockHash
    ensures r.terminalBlockNumber == if c.terminalBlockHash == 0 then c.terminalBlockNumber else 1
  {
    if c.terminalBlockHash == 0 then c
    else TransitionConfiguration(c.terminalTotalDifficulty, c.terminalBlockHash, 1)
  }

  /**
   * The 8-byte payload id for counter value n: n as an unsigned 32-bit int,
   * left-padded with zero bytes. It reads back as n, so distinct counter
   * values give distinct ids.
   */
  function PayloadIdOf(n: nat): (id: Bytes)
    requires n < UINT32_LIMIT
    ensures |id| == 8
    ensures id[..4] == [0, 0, 0, 0]
    ensures DecodeBE(id) == n
  {
    Pow256Widths();
    var zeros: Bytes := [0, 0, 0, 0];
    DecodeEncode(n, 4);
    DecodeBEConcat(zeros, EncodeBE(n, 4));
    DecodeEncode(0, 4);
    assert EncodeBE(0, 4) == zeros;
    assert (zeros + EncodeBE(n, 4))[..4] == zeros;
    zeros + EncodeBE(n, 4)
  }

  /**
   * The payload built for cached head and attributes: it extends the head,
   * takes fee recipient, randomness and timestamp from the attributes, and
   * numbers the block with the payload counter as it stands. Roots are zero,
   * the gas limit 1, gas used 0 and the base fee 1. The block hash is random
   * in the Java stub and a parameter here.
   */
  function PayloadFor(entry: HeadAndAttributes, counter: nat, blockHash: Bytes32): (p: ExecutionPayload)
    ensures p.parentHash == entry.head && p.blockHash == blockHash && p.blockNumber == counter
    ensures p.feeRecipient == entry.attributes.feeRecipient && p.prevRandao == entry.attributes.prevRandao
    ensures p.timestamp == entry.attributes.timestamp
  {
    ExecutionPayload(entry.head, entry.attributes.feeRecipient, 0, 0, entry.attributes.prevRandao, counter,
                     1, 0, entry.attributes.timestamp, 1, blockHash)
  }

  /** The header of a payload. Distinct payloads have distinct headers. */
  function HeaderOf(p: ExecutionPayload): (h: ExecutionPayloadHeader)
    ensures h.blockHash == p.blockHash && h.parentHash == p.parentHash && h.blockNumber == p.blockNumber
  {
    ExecutionPayloadHeader(p.parentHash, p.feeRecipient, p.stateRoot, p.receiptsRoot, p.prevRandao,
                           p.blockNumber, p.gasLimit, p.gasUsed, p.timestamp, p.baseFeePerGas, p.blockHash)
  }

  /** A header identifies its payload: equal headers (equal roots) mean equal payloads. */
  lemma HeaderIdentifiesPayload(p: ExecutionPayload, q: ExecutionPayload)
    ensures HeaderOf(p) == HeaderOf(q) <==> p == q
  {
    if HeaderOf(p) == HeaderOf(q) {
      assert p.feeRecipient == HeaderOf(p).feeRecipient;
    }
  }

  /**
   * Unblinding a blinded block. It succeeds exactly when the slot is at
   * Bellatrix, the block is blinded, a payload was handed out as a header
   * before, and the block's header is that payload's header. It then gives
   * back that payload. The failures are checked in that order.
   */
  function UnblindBlock(slotIsBellatrix: bool, body: BeaconBlockBody, handedOut: Option<ExecutionPayload>)
    : (r: Result<ExecutionPayload, StubError>)
    ensures r.Ok? <==> slotIsBellatrix && body.BlindedBody? && handedOut.Some?
                       && body.executionPayloadHeader == HeaderOf(handedOut.value)
    ensures r.Ok? ==> r.value == handedOut.value
    ensures !slotIsBellatrix ==> r == Err(BlindedBlockNotBellatrix)
    ensures slotIsBellatrix && body.FullBody? ==> r == Err(BlockNotBlinded)
    ensures slotIsBellatrix && body.BlindedBody? && handedOut.None? ==> r == Err(NoPayloadHeaderRequested)
    ensures r.Err? && slotIsBellatrix && body.BlindedBody? && handedOut.Some? ==> r == Err(PayloadHeaderMismatch)
  {
    if !slotIsBellatrix then Err(BlindedBlockNotBellatrix)
    else if !body.BlindedBody? then Err(BlockNotBlinded)
    else if handedOut.None? then Err(NoPayloadHeaderRequested)
    else if body.executionPayloadHeader != HeaderOf(handedOut.value) then Err(PayloadHeaderMismatch)
    else Ok(handedOut.value)
  }

  /** Ids handed out so far all read back as at most `counter`, so the id of the next counter value is new. */
  lemma NextPayloadIdIsFresh(cache: map<Bytes, HeadAndAttributes>, counter: nat)
    requires counter + 1 < UINT32_LIMIT
    requires forall id :: id in cache ==> DecodeBE(id) <= counter
    ensures PayloadIdOf(counter + 1) !in cache
  {
  }

  /** Caching the id of the new counter value keeps every cached id between 1 and the counter. */
  lemma CachedIdsStayBounded(before: map<Bytes, HeadAndAttributes>, after: map<Bytes, HeadAndAttributes>,
                             newId: Bytes, counter: nat)
    requires forall id :: id in before ==> |id| == 8 && 1 <= DecodeBE(id) <= counter - 1
    requires |newId| == 8 && DecodeBE(newId) == counter && 1 <= counter
    requires forall id :: id in after && id != newId ==> id in before
    ensures forall id :: id in after ==> |id| == 8 && 1 <= DecodeBE(id) <= counter
  {
  }

  /**
   * `after` is `before` with `id` newly cached for `entry`, less at most
   * entries evicted to keep the capacity: `id` was not cached before, and
   * every other entry of `after` is an entry of `before`.
   */
  ghost predicate CachedAsNew(before: map<Bytes, HeadAndAttributes>, after: map<Bytes, HeadAndAttributes>,
                              id: Bytes, entry: HeadAndAttributes)
  {
    && id !in before
    && id in after && after[id] == entry
    && (forall k :: k in after && k != id ==> k in before && after[k] == before[k])
  }

  class ExecutionEngineChannelStub {
    const transitionEmulationEnabled: bool
    /** The Bellatrix configuration of the spec: its terminal block hash and terminal total difficulty. */
    const specTerminalBlockHash: Bytes32
    const specTerminalTotalDifficulty: nat

    var knownBlocks: map<Bytes32, PowBlock>
    /** The LRU cache from payload id to the head and attributes it was requested for. */
    var payloadIdToHeadAndAttrsCache: map<Bytes, HeadAndAttributes>
    var payloadIdCounter: nat
    var requestedPowBlocks: set<Bytes32>
    var payloadStatus: PayloadStatus

    var bellatrixActivationDetected: bool
    var terminalBlockHash: Bytes32
    var terminalBlockParent: PowBlock
    var terminalBlock: PowBlock
    var terminalBlockSent: bool
    var transitionTime: nat
    var transitionConfiguration: Option<TransitionConfiguration>

    var lastMevBoostPayloadToBeUnblinded: Option<ExecutionPayload>
    var lastValidBlock: Option<PowBlock>

    /** The four transition fields together. */
    ghost function Transition(): TransitionBlocks
      reads this`terminalBlockHash, this`transitionTime, this`terminalBlockParent, this`terminalBlock
    {
      TransitionBlocks(terminalBlockHash, transitionTime, terminalBlockParent, terminalBlock)
    }

    /** The payload cache stays within its capacity and holds only ids already handed out. */
    ghost predicate CacheValid()
      reads this`payloadIdToHeadAndAttrsCache, this`payloadIdCounter
    {
      && |payloadIdToHeadAndAttrsCache| <= PAYLOAD_CACHE_CAPACITY
      && (forall id :: id in payloadIdToHeadAndAttrsCache ==> |id| == 8 && 1 <= DecodeBE(id) <= payloadIdCounter)
    }

    /** The terminal block is only sent after activation, and activation leaves well-formed transition blocks. */
    ghost predicate TransitionValid()
      reads this`terminalBlockSent, this`bellatrixActivationDetected, this`terminalBlockHash,
            this`transitionTime, this`terminalBlockParent, this`terminalBlock
    {
      && (terminalBlockSent ==> bellatrixActivationDetected)
      && (bellatrixActivationDetected ==> WellFormed(Transition()))
    }

    ghost predicate Valid()
      reads this
    {
      CacheValid() && TransitionValid()
    }

    /**
     * The outcome of the activation check at time `now`, given whether
     * activation was detected before and the transition blocks then:
     * activation is detected, and the transition blocks are the ones prepared
     * at `now` if this was the first detection, and unchanged otherwise.
     */
    ghost predicate ActivatedFrom(wasDetected: bool, before: TransitionBlocks, now: nat)
      reads this
    {
      && bellatrixActivationDetected
      && (wasDetected ==> Transition() == before)
      && (!wasDetected ==> Transition() == TransitionFor(transitionConfiguration, specTerminalBlockHash,
                                                         specTerminalTotalDifficulty, now))
    }

    /** A new stub knows no blocks, has no cached payloads and has not seen Bellatrix activate. */
    constructor (transitionEmulationEnabled: bool, specTerminalBlockHash: Bytes32, specTerminalTotalDifficulty: nat)
      ensures Valid()
      ensures this.transitionEmulationEnabled == transitionEmulationEnabled
      ensures this.specTerminalBlockHash == specTerminalBlockHash
      ensures this.specTerminalTotalDifficulty == specTerminalTotalDifficulty
      ensures knownBlocks == map[] && payloadIdToHeadAndAttrsCache == map[] && payloadIdCounter == 0
      ensures requestedPowBlocks == {} && payloadStatus == PAYLOAD_STATUS_VALID
      ensures !bellatrixActivationDetected && !terminalBlockSent && transitionConfiguration == None
      ensures lastMevBoostPayloadToBeUnblinded == None && lastValidBlock == None
    {
      this.transitionEmulationEnabled := transitionEmulationEnabled;
      this.specTerminalBlockHash := specTerminalBlockHash;
      this.specTerminalTotalDifficulty := specTerminalTotalDifficulty;
      knownBlocks := map[];
      payloadIdToHeadAndAttrsCache := map[];
      payloadIdCounter := 0;
      requestedPowBlocks := {};
      payloadStatus := PAYLOAD_STATUS_VALID;
      bellatrixActivationDetected := false;
      terminalBlockHash := 0;
      terminalBlockParent := TERMINAL_BLOCK_PARENT;
      terminalBlock := TERMINAL_BLOCK_PARENT;
      terminalBlockSent := false;
      transitionTime := 0;
      transitionConfiguration := None;
      lastMevBoostPayloadToBeUnblinded := None;
      lastValidBlock := None;
    }

    /** Registers a block for lookups made without transition emulation. */
    method AddPowBlock(block: PowBlock)
      modifies this`knownBlocks
      ensures knownBlocks == old(knownBlocks)[block.blockHash := block]
    {
      knownBlocks := knownBlocks[block.blockHash := block];
    }

    /** Fills in the transition fields for activation at `bellatrixActivationTime`. */
    method PrepareTransitionBlocks(bellatrixActivationTime: nat)
      modifies this`terminalBlockHash, this`transitionTime, this`terminalBlockParent, this`terminalBlock
      ensures Transition() == TransitionFor(transitionConfiguration, specTerminalBlockHash,
                                            specTerminalTotalDifficulty, bellatrixActivationTime)
    {
      var configTerminalBlockHash: Bytes32;
      var terminalTotalDifficulty: nat;
      if transitionConfiguration.Some? {
        configTerminalBlockHash := transitionConfiguration.value.terminalBlockHash;
        terminalTotalDifficulty := transitionConfiguration.value.terminalTotalDifficulty;
      } else {
        configTerminalBlockHash := specTerminalBlockHash;
        terminalTotalDifficulty := specTerminalTotalDifficulty;
      }
      if configTerminalBlockHash == 0 {
        transitionTime := bellatrixActivationTime + TRANSITION_DELAY_AFTER_BELLATRIX_ACTIVATION;
        terminalBlockHash := TTD_TERMINAL_BLOCK_HASH;
      } else {
        transitionTime := bellatrixActivationTime;
        terminalBlockHash := configTerminalBlockHash;
      }
      terminalBlockParent := PowBlock(TERMINAL_BLOCK_PARENT_HASH, 0, 0, 0);
      terminalBlock := PowBlock(terminalBlockHash, TERMINAL_BLOCK_PARENT_HASH, terminalTotalDifficulty, transitionTime);
    }

    /**
     * Detects Bellatrix activation once. The first call prepares the
     * transition blocks for activation at `now`; every later call changes
     * nothing.
     */
    method CheckBellatrixActivation(now: nat)
      requires Valid()
      modifies this`bellatrixActivationDetected, this`terminalBlockHash, this`transitionTime,
               this`terminalBlockParent, this`terminalBlock
      ensures Valid()
      ensures ActivatedFrom(old(bellatrixActivationDetected), old(Transition()), now)
      ensures old(bellatrixActivationDetected) ==> unchanged(this)
    {
      if !bellatrixActivationDetected {
        bellatrixActivationDetected := true;
        PrepareTransitionBlocks(now);
      }
    }

    /**
     * Looks up a proof-of-work block. Without emulation the hash is recorded
     * as requested and the registered block, if any, is returned. With
     * emulation, after the activation check, hash zero gives the terminal
     * block's parent, the terminal block hash gives the terminal block (and
     * marks it sent), and any other hash fails.
     */
    method GetPowBlock(blockHash: Bytes32, now: nat) returns (r: Result<Option<PowBlock>, StubError>)
      requires Valid()
      modifies this`requestedPowBlocks, this`bellatrixActivationDetected, this`terminalBlockHash,
               this`transitionTime, this`terminalBlockParent, this`terminalBlock, this`terminalBlockSent
      ensures Valid()
      ensures !transitionEmulationEnabled ==>
        && requestedPowBlocks == old(requestedPowBlocks) + {blockHash}
        && r == Ok(if blockHash in knownBlocks then Some(knownBlocks[blockHash]) else None)
        && bellatrixActivationDetected == old(bellatrixActivationDetected)
        && Transition() == old(Transition()) && terminalBlockSent == old(terminalBlockSent)
      ensures transitionEmulationEnabled ==>
        && requestedPowBlocks == old(requestedPowBlocks)
        && ActivatedFrom(old(bellatrixActivationDetected), old(Transition()), now)
        && (blockHash == TERMINAL_BLOCK_PARENT_HASH ==>
              r == Ok(Some(terminalBlockParent)) && terminalBlockSent == old(terminalBlockSent))
        && (blockHash == terminalBlockHash ==> r == Ok(Some(terminalBlock)) && terminalBlockSent)
        && (blockHash != TERMINAL_BLOCK_PARENT_HASH && blockHash != terminalBlockHash ==>
              r == Err(PowBlockNotSupported) && terminalBlockSent == old(terminalBlockSent))
    {
      if !transitionEmulationEnabled {
        requestedPowBlocks := requestedPowBlocks + {blockHash};
        return Ok(if blockHash in knownBlocks then Some(knownBlocks[blockHash]) else None);
      }
      CheckBellatrixActivation(now);
      if blockHash == TERMINAL_BLOCK_PARENT_HASH {
        return Ok(Some(terminalBlockParent));
      }
      if blockHash == terminalBlockHash {
        terminalBlockSent := true;
        return Ok(Some(terminalBlock));
      }
      r := Err(PowBlockNotSupported);
    }

    /**
     * The proof-of-work chain head, only under emulation. Once the terminal
     * block was sent the head is the last locally produced block, or the
     * terminal block if there is none. Before that, the head is the terminal
     * block from the transition time on (and it is then marked sent), and the
     * terminal block's parent before it.
     */
    method GetPowChainHead(now: nat) returns (r: Result<PowBlock, StubError>)
      requires Valid()
      modifies this`bellatrixActivationDetected, this`terminalBlockHash, this`transitionTime,
               this`terminalBlockParent, this`terminalBlock, this`terminalBlockSent
      ensures Valid()
      ensures !transitionEmulationEnabled ==> r == Err(PowChainHeadNotSupported) && unchanged(this)
      ensures transitionEmulationEnabled ==>
        && ActivatedFrom(old(bellatrixActivationDetected), old(Transition()), now)
        && (old(terminalBlockSent) ==>
              terminalBlockSent && r == Ok(if lastValidBlock.Some? then lastValidBlock.value else terminalBlock))
        && (!old(terminalBlockSent) && transitionTime <= now ==> terminalBlockSent && r == Ok(terminalBlock))
        && (!old(terminalBlockSent) && now < transitionTime ==> !terminalBlockSent && r == Ok(terminalBlockParent))
    {
      if !transitionEmulationEnabled {
        return Err(PowChainHeadNotSupported);
      }
      CheckBellatrixActivation(now);
      if terminalBlockSent {
        return Ok(if lastValidBlock.Some? then lastValidBlock.value else terminalBlock);
      }
      if now >= transitionTime {
        terminalBlockSent := true;
        return Ok(terminalBlock);
      }
      r := Ok(terminalBlockParent);
    }

    /**
     * LRUCache.invalidateWithNewValue for a fresh id: stores the entry and,
     * when the cache is full, evicts one other entry. Which entry is least
     * recently used is not modelled, so the victim is unspecified.
     */
    method CachePayloadEntry(payloadId: Bytes, entry: HeadAndAttributes)
      requires payloadId !in payloadIdToHeadAndAttrsCache
      requires |payloadIdToHeadAndAttrsCache| <= PAYLOAD_CACHE_CAPACITY
      modifies this`payloadIdToHeadAndAttrsCache
      ensures payloadId in payloadIdToHeadAndAttrsCache && payloadIdToHeadAndAttrsCache[payloadId] == entry
      ensures |payloadIdToHeadAndAttrsCache| <= PAYLOAD_CACHE_CAPACITY
      ensures forall id :: id in payloadIdToHeadAndAttrsCache && id != payloadId ==>
                id in old(payloadIdToHeadAndAttrsCache)
                && payloadIdToHeadAndAttrsCache[id] == old(payloadIdToHeadAndAttrsCache)[id]
      ensures |old(payloadIdToHeadAndAttrsCache)| < PAYLOAD_CACHE_CAPACITY ==>
                payloadIdToHeadAndAttrsCache == old(payloadIdToHeadAndAttrsCache)[payloadId := entry]
    {
      var cache := payloadIdToHeadAndAttrsCache;
      if |cache| == PAYLOAD_CACHE_CAPACITY {
        var victim :| victim in cache;
        cache := cache - {victim};
      }
      payloadIdToHeadAndAttrsCache := cache[payloadId := entry];
    }

    /**
     * A fork choice update. It first runs the activation check when
     * activation was not yet detected, and the status it reports is always
     * VALID. Without payload attributes nothing else happens. With them the
     * counter is incremented; its new value, as an unsigned 32-bit int padded
     * to 8 bytes, is the payload id, cached with the head and the attributes.
     * A counter value beyond 32 bits makes the call fail after the increment.
     */
    method ForkChoiceUpdated(headBlockHash: Bytes32, payloadAttributes: Option<PayloadAttributes>, now: nat)
      returns (r: Result<ForkChoiceUpdatedResult, StubError>)
      requires Valid()
      modifies this`bellatrixActivationDetected, this`terminalBlockHash, this`transitionTime,
               this`terminalBlockParent, this`terminalBlock, this`payloadIdCounter, this`payloadIdToHeadAndAttrsCache
      ensures Valid()
      ensures ActivatedFrom(old(bellatrixActivationDetected), old(Transition()), now)
      ensures payloadAttributes.None? ==>
        && r == Ok(ForkChoiceUpdatedResult(PAYLOAD_STATUS_VALID, None))
        && payloadIdCounter == old(payloadIdCounter)
        && payloadIdToHeadAndAttrsCache == old(payloadIdToHeadAndAttrsCache)
      ensures payloadAttributes.Some? ==> payloadIdCounter == old(payloadIdCounter) + 1
      ensures payloadAttributes.Some? && payloadIdCounter >= UINT32_LIMIT ==>
        r == Err(PayloadIdTooLarge) && payloadIdToHeadAndAttrsCache == old(payloadIdToHeadAndAttrsCache)
      ensures payloadAttributes.Some? && payloadIdCounter < UINT32_LIMIT ==>
        && r == Ok(ForkChoiceUpdatedResult(PAYLOAD_STATUS_VALID, Some(PayloadIdOf(payloadIdCounter))))
        && CachedAsNew(old(payloadIdToHeadAndAttrsCache), payloadIdToHeadAndAttrsCache,
                       PayloadIdOf(payloadIdCounter), HeadAndAttributes(headBlockHash, payloadAttributes.value))
    {
      // The Java code guards this call with !bellatrixActivationDetected;
      // CheckBellatrixActivation makes the same test itself.
      CheckBellatrixActivation(now);
      if payloadAttributes.None? {
        return Ok(ForkChoiceUpdatedResult(PAYLOAD_STATUS_VALID, None));
      }
      var payloadId := AssignPayloadId(HeadAndAttributes(headBlockHash, payloadAttributes.value));
      if payloadId.Err? {
        return Err(payloadId.error);
      }
      r := Ok(ForkChoiceUpdatedResult(PAYLOAD_STATUS_VALID, Some(payloadId.value)));
    }

    /**
     * The payload-id step of a fork choice update: increments the counter
     * and caches `entry` under the id for its new value, or fails when that
     * value does not fit an unsigned 32-bit int.
     */
    method AssignPayloadId(entry: HeadAndAttributes) returns (r: Result<Bytes, StubError>)
      requires CacheValid()
      modifies this`payloadIdCounter, this`payloadIdToHeadAndAttrsCache
      ensures CacheValid()
      ensures payloadIdCounter == old(payloadIdCounter) + 1
      ensures payloadIdCounter >= UINT32_LIMIT ==>
        r == Err(PayloadIdTooLarge) && payloadIdToHeadAndAttrsCache == old(payloadIdToHeadAndAttrsCache)
      ensures payloadIdCounter < UINT32_LIMIT ==>
        && r == Ok(PayloadIdOf(payloadIdCounter))
        && CachedAsNew(old(payloadIdToHeadAndAttrsCache), payloadIdToHeadAndAttrsCache, r.value, entry)
    {
      payloadIdCounter := payloadIdCounter + 1;
      if payloadIdCounter >= UINT32_LIMIT {
        return Err(PayloadIdTooLarge);
      }
      var payloadId := PayloadIdOf(payloadIdCounter);
      ghost var before := payloadIdToHeadAndAttrsCache;
      NextPayloadIdIsFresh(before, payloadIdCounter - 1);
      CachePayloadEntry(payloadId, entry);
      CachedIdsStayBounded(before, payloadIdToHeadAndAttrsCache, payloadId, payloadIdCounter);
      r := Ok(payloadId);
    }

    /**
     * Builds the payload for a cached payload id. After the activation check
     * it fails for a slot before Bellatrix and for an id not in the cache.
     * Otherwise it returns the payload for the cached head and attributes and
     * records it as the last valid block, since all blocks are produced
     * locally. `blockHash` stands for the random block hash.
     */
    method GetPayload(payloadId: Bytes, slotIsBellatrix: bool, now: nat, blockHash: Bytes32)
      returns (r: Result<ExecutionPayload, StubError>)
      requires Valid()
      modifies this`bellatrixActivationDetected, this`terminalBlockHash, this`transitionTime,
               this`terminalBlockParent, this`terminalBlock, this`lastValidBlock
      ensures Valid()
      ensures ActivatedFrom(old(bellatrixActivationDetected), old(Transition()), now)
      ensures !slotIsBellatrix ==> r == Err(PayloadNotBellatrix) && lastValidBlock == old(lastValidBlock)
      ensures slotIsBellatrix && payloadId !in payloadIdToHeadAndAttrsCache ==>
                r == Err(PayloadIdNotFound) && lastValidBlock == old(lastValidBlock)
      ensures slotIsBellatrix && payloadId in payloadIdToHeadAndAttrsCache ==>
        var entry := payloadIdToHeadAndAttrsCache[payloadId];
        && r == Ok(PayloadFor(entry, payloadIdCounter, blockHash))
        && lastValidBlock == Some(PowBlock(blockHash, entry.head, 0, entry.attributes.timestamp))
    {
      // The Java code guards this call with !bellatrixActivationDetected;
      // CheckBellatrixActivation makes the same test itself.
      CheckBellatrixActivation(now);
      if !slotIsBellatrix {
        return Err(PayloadNotBellatrix);
      }
      if payloadId !in payloadIdToHeadAndAttrsCache {
        return Err(PayloadIdNotFound);
      }
      var headAndAttrs := payloadIdToHeadAndAttrsCache[payloadId];
      var executionPayload := PayloadFor(headAndAttrs, payloadIdCounter, blockHash);
      lastValidBlock := Some(PowBlock(executionPayload.blockHash, executionPayload.parentHash, 0,
                                      headAndAttrs.attributes.timestamp));
      r := Ok(executionPayload);
    }

    /** A new payload is answered with the configured status, whatever the payload. */
    function NewPayload(executionPayload: ExecutionPayload): (r: PayloadStatus)
      reads this
      ensures r == payloadStatus
    {
      payloadStatus
    }

    /** Sets the status later new payloads are answered with. */
    method SetPayloadStatus(status: PayloadStatus)
      modifies this`payloadStatus
      ensures payloadStatus == status
    {
      payloadStatus := status;
    }

    /**
     * Records the consensus side's transition configuration, which takes
     * effect if activation has not been detected yet, and answers it.
     */
    method ExchangeTransitionConfiguration(c: TransitionConfiguration) returns (r: TransitionConfiguration)
      requires Valid()
      modifies this`transitionConfiguration
      ensures Valid()
      ensures transitionConfiguration == Some(c)
      ensures r == ExchangeResponse(c)
    {
      transitionConfiguration := Some(c);
      if c.terminalBlockHash == 0 {
        r := c;
      } else {
        r := TransitionConfiguration(c.terminalTotalDifficulty, c.terminalBlockHash, 1);
      }
    }

    /**
     * Builds the payload as GetPayload does and hands out only its header,
     * remembering the payload for a later unblinding. A failure of
     * GetPayload is passed on and leaves both the remembered payload and
     * the last valid block as they were.
     */
    method GetPayloadHeader(payloadId: Bytes, slotIsBellatrix: bool, now: nat, blockHash: Bytes32)
      returns (r: Result<ExecutionPayloadHeader, StubError>)
      requires Valid()
      modifies this`bellatrixActivationDetected, this`terminalBlockHash, this`transitionTime,
               this`terminalBlockParent, this`terminalBlock, this`lastValidBlock, this`lastMevBoostPayloadToBeUnblinded
      ensures Valid()
      ensures ActivatedFrom(old(bellatrixActivationDetected), old(Transition()), now)
      ensures !slotIsBellatrix ==> r == Err(PayloadNotBellatrix)
      ensures slotIsBellatrix && payloadId !in payloadIdToHeadAndAttrsCache ==> r == Err(PayloadIdNotFound)
      ensures r.Err? ==> lastMevBoostPayloadToBeUnblinded == old(lastMevBoostPayloadToBeUnblinded)
                         && lastValidBlock == old(lastValidBlock)
      ensures slotIsBellatrix && payloadId in payloadIdToHeadAndAttrsCache ==>
        var payload := PayloadFor(payloadIdToHeadAndAttrsCache[payloadId], payloadIdCounter, blockHash);
        && r == Ok(HeaderOf(payload))
        && lastMevBoostPayloadToBeUnblinded == Some(payload)
        && lastValidBlock == Some(PowBlock(blockHash, payload.parentHash, 0, payload.timestamp))
    {
      var payload := GetPayload(payloadId, slotIsBellatrix, now, blockHash);
      if payload.Err? {
        return Err(payload.error);
      }
      lastMevBoostPayloadToBeUnblinded := Some(payload.value);
      r := Ok(HeaderOf(payload.value));
    }

    /**
     * Unblinds a signed blinded block: the payload last handed out by
     * GetPayloadHeader, provided the slot is at Bellatrix, the block is
     * blinded and its header is that payload's header.
     */
    function ProposeBlindedBlock(slotIsBellatrix: bool, body: BeaconBlockBody): (r: Result<ExecutionPayload, StubError>)
      reads this
      ensures r.Ok? <==> slotIsBellatrix && body.BlindedBody? && lastMevBoostPayloadToBeUnblinded.Some?
                         && body.executionPayloadHeader == HeaderOf(lastMevBoostPayloadToBeUnblinded.value)
      ensures r.Ok? ==> Some(r.value) == lastMevBoostPayloadToBeUnblinded
    {
      UnblindBlock(slotIsBellatrix, body, lastMevBoostPayloadToBeUnblinded)
    }
  }

  /**
   * Transition by terminal total difficulty: Bellatrix is detected at
   * `activation`; up to 9 seconds later the chain head is the terminal
   * block's parent; from 10 seconds on it is the terminal block, hash 1, with
   * the spec's terminal total difficulty; and that block is then found by
   * its hash.
   */
  method TtdTransition(terminalTotalDifficulty: nat, activation: nat)
    returns (early: Result<PowBlock, StubError>, late: Result<PowBlock, StubError>,
             reached: Result<PowBlock, StubError>, byHash: Result<Option<PowBlock>, StubError>)
    ensures early == Ok(TERMINAL_BLOCK_PARENT) && late == Ok(TERMINAL_BLOCK_PARENT)
    ensures reached == Ok(PowBlock(1, 0, terminalTotalDifficulty, activation + 10))
    ensures byHash == Ok(Some(reached.value))
  {
    var stub := new ExecutionEngineChannelStub(true, 0, terminalTotalDifficulty);
    early := stub.GetPowChainHead(activation);
    late := stub.GetPowChainHead(activation + 9);
    reached := stub.GetPowChainHead(activation + 10);
    byHash := stub.GetPowBlock(1, activation + 11);
  }

  /**
   * Transition by terminal block hash, configured through an exchange
   * before activation: the exchange answers with terminal block number 1,
   * the configured hash gives the terminal block, and from then on that
   * block is the chain head.
   */
  method TbhTransition(terminalBlockHash: Bytes32, terminalTotalDifficulty: nat, now: nat)
    returns (response: TransitionConfiguration, terminal: Result<Option<PowBlock>, StubError>,
             head: Result<PowBlock, StubError>)
    requires terminalBlockHash != 0
    ensures response == TransitionConfiguration(terminalTotalDifficulty, terminalBlockHash, 1)
    ensures terminal == Ok(Some(PowBlock(terminalBlockHash, 0, terminalTotalDifficulty, now)))
    ensures head == Ok(terminal.value.value)
  {
    var stub := new ExecutionEngineChannelStub(true, 0, 0);
    response := stub.ExchangeTransitionConfiguration(
      TransitionConfiguration(terminalTotalDifficulty, terminalBlockHash, 0));
    assert stub.transitionConfiguration.value.terminalBlockHash == terminalBlockHash;
    terminal := stub.GetPowBlock(terminalBlockHash, now);
    assert stub.terminalBlockSent && stub.lastValidBlock == None;
    head := stub.GetPowChainHead(now + 100);
  }

  /**
   * Under terminal-block-hash emulation, hash zero still gives the terminal
   * block's parent, and a hash that is neither zero nor the configured one
   * is refused.
   */
  method TbhOtherHashes(terminalBlockHash: Bytes32, now: nat)
    returns (parent: Result<Option<PowBlock>, StubError>, other: Result<Option<PowBlock>, StubError>)
    requires terminalBlockHash != 0 && terminalBlockHash != 1
    ensures parent == Ok(Some(TERMINAL_BLOCK_PARENT))
    ensures other == Err(PowBlockNotSupported)
  {
    var stub := new ExecutionEngineChannelStub(true, terminalBlockHash, 0);
    parent := stub.GetPowBlock(0, now);
    other := stub.GetPowBlock(1, now);
  }

  /**
   * Without emulation, block lookups answer from the registered blocks and
   * record every requested hash, and the chain head is not supported.
   */
  method NoEmulation(block: PowBlock, otherHash: Bytes32, now: nat)
    returns (found: Result<Option<PowBlock>, StubError>, missing: Result<Option<PowBlock>, StubError>,
             head: Result<PowBlock, StubError>, requested: set<Bytes32>)
    requires otherHash != block.blockHash
    ensures found == Ok(Some(block)) && missing == Ok(None)
    ensures head == Err(PowChainHeadNotSupported)
    ensures requested == {block.blockHash, otherHash}
  {
    var stub := new ExecutionEngineChannelStub(false, 0, 0);
    stub.AddPowBlock(block);
    found := stub.GetPowBlock(block.blockHash, now);
    missing := stub.GetPowBlock(otherHash, now);
    head := stub.GetPowChainHead(now);
    requested := stub.requestedPowBlocks;
  }

  /** Successive fork choice updates with attributes get payload ids 1 and 2. */
  method PayloadIdsCount(head: Bytes32, attributes: PayloadAttributes, now: nat)
    returns (first: Result<ForkChoiceUpdatedResult, StubError>, second: Result<ForkChoiceUpdatedResult, StubError>)
    ensures first == Ok(ForkChoiceUpdatedResult(PAYLOAD_STATUS_VALID, Some(PayloadIdOf(1))))
    ensures second == Ok(ForkChoiceUpdatedResult(PAYLOAD_STATUS_VALID, Some(PayloadIdOf(2))))
  {
    var stub := new ExecutionEngineChannelStub(false, 0, 0);
    Pow256Widths();
    first := stub.ForkChoiceUpdated(head, Some(attributes), now);
    assert stub.payloadIdCounter == 1;
    second := stub.ForkChoiceUpdated(head, Some(attributes), now);
    assert stub.payloadIdCounter == 2;
  }

  /**
   * The builder flow: the header for the id of a fork choice update
   * describes a payload that extends the requested head with the requested
   * attributes; a blinded block carrying that header unblinds to exactly
   * that payload, and one carrying another header is refused.
   */
  method BuilderFlow(head: Bytes32, attributes: PayloadAttributes, now: nat, blockHash: Bytes32,
                     otherHeader: ExecutionPayloadHeader)
    returns (header: Result<ExecutionPayloadHeader, StubError>, unblinded: Result<ExecutionPayload, StubError>,
             refused: Result<ExecutionPayload, StubError>)
    ensures header.Ok? && unblinded.Ok? && header.value == HeaderOf(unblinded.value)
    ensures unblinded.value.parentHash == head && unblinded.value.timestamp == attributes.timestamp
    ensures unblinded.value.prevRandao == attributes.prevRandao && unblinded.value.feeRecipient == attributes.feeRecipient
    ensures unblinded.value.blockHash == blockHash && unblinded.value.blockNumber == 1
    ensures otherHeader != header.value ==> refused == Err(PayloadHeaderMismatch)
  {
    var stub := new ExecutionEngineChannelStub(false, 0, 0);
    Pow256Widths();
    var updated := stub.ForkChoiceUpdated(head, Some(attributes), now);
    assert stub.payloadIdCounter == 1;
    var id := PayloadIdOf(1);
    assert CachedAsNew(map[], stub.payloadIdToHeadAndAttrsCache, id, HeadAndAttributes(head, attributes));
    assert id in stub.payloadIdToHeadAndAttrsCache;
    header := stub.GetPayloadHeader(id, true, now, blockHash);
    unblinded := stub.ProposeBlindedBlock(true, BlindedBody(header.value));
    refused := stub.ProposeBlindedBlock(true, BlindedBody(otherHeader));
  }
}
