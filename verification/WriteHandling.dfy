/** Client writes are all or nothing. */
module WriteHandling {
  import opened Core
  import opened Frame
  import opened Payload
  import opened Registers
  import opened Config
  import opened RegisterMap
  import opened Health
  import opened Gateway
  import opened Confirmation
  import opened Layout
  import opened Slots
  import opened CacheAgreement
  import opened Conservation
  import LineReader

  /* ---------- Which point a write is for ---------- */

  predicate Answers(p: PointConfig, slave: int, address: int, count: nat) {
    p.writable && SlaveOf(p) == slave && p.modbusAddress == address && RegisterCount(p) == count
  }

  /** No writable point of an accepted configuration is lost in the dictionary: a write to
      exactly its registers finds it, and a write that finds a point is to exactly its
      registers. */
  lemma {:induction false} LookupIsExact(config: GatewayConfig, slave: int, address: int, count: nat, i: nat)
    requires Accepts(config) && i < |config.points|
    ensures Answers(config.points[i], slave, address, count) <==>
            config.points[i].writable && WritableAt(config.points, slave, address, count) == Some(config.points[i])
  {
    hide Accepts;
    if Answers(config.points[i], slave, address, count) {
      LastAnswers(config, config.points, slave, address, count, i);
    } else if WritableAt(config.points, slave, address, count).Some? {
      WritableFound(config.points, slave, address, count);
    }
  }

  /** Two writable points of an accepted configuration never answer to the same registers. */
  lemma NoSecondAnswer(config: GatewayConfig, i: nat, j: nat)
    requires Accepts(config) && i < j < |config.points| && config.points[i].writable && config.points[j].writable
    ensures KeyFor(config.points[i]) != KeyFor(config.points[j])
  {
    var p, q := config.points[i], config.points[j];
    assert PointFieldsOk(BusNames(config.buses), p) && PointFieldsOk(BusNames(config.buses), q);
    assert Compatible(p, q);
    assert p.modbusAddress in PointCells(p) by { FirstCell(p); }
    assert q.modbusAddress in PointCells(q) by { FirstCell(q); }
  }

  lemma FirstCell(p: PointConfig)
    requires WritablePair(p.protocolFormat, p.modbusDataType)
    ensures p.modbusAddress in PointCells(p)
  {}

  lemma {:induction false} LastAnswers(config: GatewayConfig, points: seq<PointConfig>, slave: int, address: int,
                                       count: nat, i: nat)
    requires Accepts(config) && points <= config.points && i < |points|
    requires Answers(points[i], slave, address, count)
    ensures WritableAt(points, slave, address, count) == Some(points[i])
  {
    hide Accepts, RegisterCount;
    var last := |points| - 1;
    if i < last {
      if points[last].writable {
        NoSecondAnswer(config, i, last);
      }
      LastAnswers(config, points[..last], slave, address, count, i);
    }
  }

  type WriteKey = (int, int, nat)

  function KeyFor(p: PointConfig): WriteKey { (SlaveOf(p), p.modbusAddress, RegisterCount(p)) }

  /** The dictionary built at start-up answers as `WritableAt`. */
  method GroupWritablePoints(points: seq<PointConfig>) returns (grouped: map<WriteKey, PointConfig>)
    ensures forall key: WriteKey :: WritableAt(points, key.0, key.1, key.2) ==
                                    if key in grouped then Some(grouped[key]) else None
  {
    grouped := map[];
    for i := 0 to |points|
      invariant forall key: WriteKey :: WritableAt(points[..i], key.0, key.1, key.2) ==
                                        if key in grouped then Some(grouped[key]) else None
    {
      assert points[..i + 1][..i] == points[..i];
      if points[i].writable {
        grouped := grouped[KeyFor(points[i]) := points[i]];
      }
    }
    assert points[..|points|] == points;
  }

  /* ---------- When a write is accepted ---------- */

  /** A write is kept exactly when its registers say a number, the number has a payload, the
      write exchange ends in a reply, one of the read-backs confirms it, and only then looked
      at, the acknowledgement is right. So a refused write may well have reached the device. */
  lemma KeptExactly(floats: Floats, p: PointConfig, words: seq<word>,
                    ack: Result<Option<OwenFrame>>, readBacks: seq<Result<OwenFrame>>)
    ensures WriteOutcome(floats, p, words, ack, readBacks).Ok? <==>
            var written := NumberIn(floats, words, p.modbusDataType);
            && written.Some? && EncodePayload(floats, written.value, p.protocolFormat).Ok? && ack.Ok?
            && (exists j :: 0 <= j < |readBacks| && Confirms(floats, p, written.value, readBacks[j]))
            && Acknowledges(p, ack.value)
  {
    hide NumberIn, EncodePayload, Confirms, Acknowledges, WriteOutcome;
    OutcomeIsTaken(floats, p, words, ack, readBacks);
    var written := NumberIn(floats, words, p.modbusDataType);
    if written.Some? {
      FirstConfirmingIs(floats, p, written.value, readBacks);
    }
  }

  /** A write seen from the line, when its reply is `frame`, delivered whole or cut short: a
      reply cut short is never held against the write, a complete one only if it is wrong. */
  lemma KeptOnDelivery(floats: Floats, p: PointConfig, words: seq<word>, frame: OwenFrame, fragments: seq<seq<byte>>,
                       readBacks: seq<Result<OwenFrame>>)
    requires Encodable(frame) && LineReader.Flatten(fragments) <= Wire(frame)
    ensures WriteOutcome(floats, p, words, LineReader.ReceiveAck(fragments), readBacks).Ok? <==>
            var written := NumberIn(floats, words, p.modbusDataType);
            && written.Some? && EncodePayload(floats, written.value, p.protocolFormat).Ok?
            && (exists j :: 0 <= j < |readBacks| && Confirms(floats, p, written.value, readBacks[j]))
            && !LineReader.Silent(fragments)
            && (LineReader.Starved(fragments, |Wire(frame)| - 1, 0) || Acknowledges(p, Some(frame)))
  {
    hide Wire, NumberIn, EncodePayload, Confirms, WriteOutcome, LineReader.ReceiveAck, LineReader.Silent;
    KeptExactly(floats, p, words, LineReader.ReceiveAck(fragments), readBacks);
    LineReader.AckOfFrame(frame, fragments);
  }

  lemma IntegersMatchExactly(floats: Floats, p: PointConfig, words: seq<word>, readBacks: seq<Result<OwenFrame>>, j: int,
                             verified: Value)
    requires WritablePair(p.protocolFormat, p.modbusDataType) && !p.modbusDataType.Float32Type?
    requires NumberIn(floats, words, p.modbusDataType).Some?
    requires FirstAt(floats, p, NumberIn(floats, words, p.modbusDataType).value, readBacks, j, verified)
    ensures verified == NumberIn(floats, words, p.modbusDataType).value
  {}

  /** What a float was confirmed with is within 51 thousandths of it. */
  lemma FloatsMatchNearly(floats: Floats, p: PointConfig, words: seq<word>, readBacks: seq<Result<OwenFrame>>, j: int,
                          verified: Value)
    requires WritablePair(p.protocolFormat, p.modbusDataType) && p.modbusDataType.Float32Type?
    requires NumberIn(floats, words, p.modbusDataType).Some?
    requires FirstAt(floats, p, NumberIn(floats, words, p.modbusDataType).value, readBacks, j, verified)
    ensures var written := NumberIn(floats, words, p.modbusDataType).value;
            written.Float? && verified.Float? && -0.051 <= written.x - verified.x <= 0.051
  {
    hide DecodeStoredDot;
  }

  /* ---------- What a kept write changes ---------- */

  lemma {:induction false} PublishedElsewhere(store: Store, writes: seq<Write>, c: Cell)
    requires forall i :: 0 <= i < |writes| ==> c !in CellsOf(writes[i])
    ensures At(PublishAll(store, writes), c) == At(store, c)
    ensures PublishAll(store, writes).pending == store.pending
    decreases |writes|
  {
    if writes != [] {
      AssignedElsewhere(store.registers, writes[0], c);
      PublishedElsewhere(Publish(store, writes[0]), writes[1..], c);
    }
  }

  /** After a value is published with its point's metadata and the mask, its cells hold it. */
  lemma ValueStays(config: GatewayConfig, floats: Floats, store: Store, p: PointConfig, value: Value, mask: nat, i: nat)
    requires Private(config, ValueRegion(p)) && p in config.points && p.publishToModbus && mask < 0x100
    requires PublishedWords(floats, p, value).Ok? && i < |PublishedWords(floats, p, value).value|
    ensures var words := PublishedWords(floats, p, value).value;
            var writes := ValueWrites(p, words) + MetadataWrites(p, None, CHANNEL_OK);
            var after := Publish(PublishAll(store, writes), MaskWrite(SlaveOf(p), mask));
            At(after, Cell(SlaveOf(p), p.registerType, p.modbusAddress + i)) == Stored(p.registerType, words[i])
  {
    hide Private, PublishedWords, MetadataWrites, Stored, Within, Known, Covers, Assigned, CellsFrom, PublishAll,
         PendingAmong, SlaveOf;
    var words := PublishedWords(floats, p, value).value;
    var w, metadata := Write(SlaveOf(p), p.registerType, p.modbusAddress, words), MetadataWrites(p, None, CHANNEL_OK);
    var c := Cell(SlaveOf(p), p.registerType, p.modbusAddress + i);
    var published := Publish(store, w);
    assert ValueWrites(p, words) == [w];
    PublishAllConcat(store, [w], metadata);
    OneWrite(store, w);
    ValuePlaced(config, floats, p, value, words);
    MetadataPlaced(config, p, None, CHANNEL_OK);
    MaskIsPlaced(config, p, mask);
    assert Known(config, ValueRegion(p)) && Within(config, w, ValueRegion(p)) by { assert w == ValueWrites(p, words)[0]; }
    assert c in CellsOf(w);
    forall j | 0 <= j < |metadata| ensures c !in CellsOf(metadata[j]) {
      WritesApart(config, w, ValueRegion(p), metadata[j], MetadataRegion(p));
    }
    WritesApart(config, w, ValueRegion(p), MaskWrite(SlaveOf(p), mask), MaskRegion(SlaveOf(p)));
    PublishedElsewhere(published, metadata, c);
    AssignedElsewhere(PublishAll(published, metadata).registers, MaskWrite(SlaveOf(p), mask), c);
    AssignedHere(store.registers, w, c);
  }

  lemma MaskIsPlaced(config: GatewayConfig, p: PointConfig, mask: nat)
    requires p in config.points && mask < 0x100
    ensures Known(config, MaskRegion(SlaveOf(p))) && Within(config, MaskWrite(SlaveOf(p), mask), MaskRegion(SlaveOf(p)))
  {}

  /* ---------- All or nothing ---------- */

  /** Nothing happened: the registers hold what the write reported as their previous
      content, all other registers and every record are untouched. */
  ghost predicate Undone(s: State, after: State, k: nat)
    requires k < |s.store.pending|
  {
    var write := s.store.pending[k];
    && after == s.(store := after.store)
    && after.store.pending == Without(s.store.pending, k)
    && (|write.previous| == |write.words| ==>
          forall i :: 0 <= i < |write.words| ==>
            At(after.store, Cell(write.slave, HoldingRegister, write.address + i)) == write.previous[i])
    && (forall c :: c !in PendingCells(write) && |write.previous| == |write.words| ==> At(after.store, c) == At(s.store, c))
  }

  /** The write took: the value of the first read-back that confirms the written one is
      cached and in the registers, and the point is healthy again. Nothing else changes but
      the point's channel status register and its device's mask. */
  ghost predicate Kept(config: GatewayConfig, floats: Floats, s: State, after: State, k: nat, p: PointConfig,
                       verified: Value, readBacks: seq<Result<OwenFrame>>)
    requires k < |s.store.pending|
  {
    var write := s.store.pending[k];
    var written := NumberIn(floats, write.words, p.modbusDataType);
    && written.Some?
    && (exists j :: FirstAt(floats, p, written.value, readBacks, j, verified))
    && (if p.modbusDataType.Float32Type?
        then written.value.Float? && verified.Float? && -0.051 <= written.value.x - verified.x <= 0.051
        else verified == written.value)
    && RecordsKept(s, after, p, verified)
    && after.store.pending == Without(s.store.pending, k)
    && RegistersKept(config, floats, s, after, k, p, verified)
  }

  ghost predicate RecordsKept(s: State, after: State, p: PointConfig, verified: Value) {
    && after.pointValues == s.pointValues[p.name := Some(verified)]
    && after.pointStates == s.pointStates[p.name := PointState(0, 1, PointStateIn(s.pointStates, p.name).recoverySkipCycles)]
    && after.logicMasks == s.logicMasks[KeyOf(p) := LogicMaskIn(after.logicMasks, KeyOf(p))]
    && SamePolling(s, after)
  }

  /** The point's registers hold the value, unless its own channel status or the mask lies
      on them; all registers off the point and the mask are untouched. */
  ghost predicate RegistersKept(config: GatewayConfig, floats: Floats, s: State, after: State, k: nat, p: PointConfig,
                                verified: Value)
    requires k < |s.store.pending|
  {
    var write := s.store.pending[k];
    var words := EncodeRegisters(floats, verified, p.modbusDataType);
    && words.Ok? && |words.value| == |write.words|
    && (ValueSpared(config, p) ==>
          forall i :: 0 <= i < |write.words| ==>
            At(after.store, Cell(write.slave, HoldingRegister, write.address + i)) == words.value[i])
    && forall c :: !TouchedByWrite(config, p, c) ==> At(after.store, c) == At(s.store, c)
  }

  predicate TouchedByWrite(config: GatewayConfig, p: PointConfig, c: Cell) {
    || Covers(config, ValueRegion(p), c)
    || (p.channelStatusAddress.Some? && c == Cell(SlaveOf(p), p.registerType, p.channelStatusAddress.value))
    || Covers(config, MaskRegion(SlaveOf(p)), c)
  }

  lemma RejectUndoes(s: State, k: nat)
    requires k < |s.store.pending|
    ensures Undone(s, RejectWrite(s, k), k)
  {
    hide Assigned, CellsFrom, Without;
    var write, after := s.store.pending[k], RejectWrite(s, k);
    var w := Write(write.slave, HoldingRegister, write.address, write.previous);
    if |write.previous| == |write.words| {
      forall c | c !in PendingCells(write) ensures At(after.store, c) == At(s.store, c) {
        AssignedElsewhere(s.store.registers, w, c);
      }
      forall i | 0 <= i < |write.words|
        ensures At(after.store, Cell(write.slave, HoldingRegister, write.address + i)) == write.previous[i]
      {
        AssignedHere(s.store.registers, w, Cell(write.slave, HoldingRegister, write.address + i));
      }
    }
  }

  lemma NothingElseTouched(config: GatewayConfig, floats: Floats, store: Store, p: PointConfig, value: Value, mask: nat,
                           c: Cell)
    requires p in config.points && PublishedWords(floats, p, value).Ok? && mask < 0x100
    requires !TouchedByWrite(config, p, c)
    ensures var words := PublishedWords(floats, p, value).value;
            var writes := ValueWrites(p, words) + MetadataWrites(p, None, CHANNEL_OK);
            At(Publish(PublishAll(store, writes), MaskWrite(SlaveOf(p), mask)), c) == At(store, c)
  {
    hide PublishAll, PublishedWords, Assigned, CellsFrom, PendingAmong;
    var words := PublishedWords(floats, p, value).value;
    var writes := ValueWrites(p, words) + MetadataWrites(p, None, CHANNEL_OK);
    ValuePlaced(config, floats, p, value, words);
    forall i | 0 <= i < |writes| ensures c !in CellsOf(writes[i]) {
      if i < |ValueWrites(p, words)| {
        assert Within(config, ValueWrites(p, words)[i], ValueRegion(p));
      }
    }
    PublishedElsewhere(store, writes, c);
    AssignedElsewhere(PublishAll(store, writes).registers, MaskWrite(SlaveOf(p), mask), c);
  }

  lemma AcceptChangesRecords(config: GatewayConfig, floats: Floats, s: State, k: nat, p: PointConfig, value: Value)
    requires k < |s.store.pending| && PublishedWords(floats, p, value).Ok?
    ensures var after := AcceptWrite(config, floats, s, k, p, value);
            RecordsKept(s, after, p, value) && after.store.pending == Without(s.store.pending, k)
  {
    hide PublishAll, PublishedWords, ValueWrites, MetadataWrites, PointStateIn, NextMask, Without, Assigned;
    var words := PublishedWords(floats, p, value).value;
    AcceptCountsNothing(config, floats, s, k, p, value);
    PendingAfterAll(Withdraw(s.store, k), ValueWrites(p, words) + MetadataWrites(p, None, CHANNEL_OK));
  }

  lemma AcceptChangesRegisters(config: GatewayConfig, floats: Floats, s: State, k: nat, p: PointConfig, value: Value)
    requires Accepts(config) && k < |s.store.pending| && PublishedWords(floats, p, value).Ok?
    requires p in config.points && p.publishToModbus && p.registerType == HoldingRegister
    requires var write := s.store.pending[k];
             write.slave == SlaveOf(p) && write.address == p.modbusAddress && |write.words| == Width(p.modbusDataType)
    ensures RegistersKept(config, floats, s, AcceptWrite(config, floats, s, k, p, value), k, p, value)
  {
    hide Accepts, EncodeRegisters, PublishAll, Publish, MetadataWrites, ValueWrites, AfterSuccess, PointStateIn, NextMask,
         MaskWrite, ValueSpared, TouchedByWrite;
    var write, words := s.store.pending[k], PublishedWords(floats, p, value).value;
    var after := AcceptWrite(config, floats, s, k, p, value);
    var published := WithValue(s, p, value).(store :=
      PublishAll(Withdraw(s.store, k), ValueWrites(p, words) + MetadataWrites(p, None, CHANNEL_OK)));
    var mask := NextMask(config, published, KeyOf(p));
    if ValueSpared(config, p) {
      ValueIsPrivateExactly(config, p);
      forall i | 0 <= i < |write.words|
        ensures At(after.store, Cell(write.slave, HoldingRegister, write.address + i)) == words[i]
      {
        ValueStays(config, floats, Withdraw(s.store, k), p, value, mask, i);
      }
    }
    forall c | !TouchedByWrite(config, p, c) ensures At(after.store, c) == At(s.store, c) {
      NothingElseTouched(config, floats, Withdraw(s.store, k), p, value, mask, c);
    }
  }

  lemma AcceptKeeps(config: GatewayConfig, floats: Floats, s: State, k: nat, p: PointConfig,
                    ack: Result<Option<OwenFrame>>, readBacks: seq<Result<OwenFrame>>)
    requires Accepts(config) && Lawful(floats) && k < |s.store.pending|
    requires var write := s.store.pending[k];
             WritableAt(config.points, write.slave, write.address, |write.words|) == Some(p) &&
             Taken(floats, p, write.words, ack, readBacks).Some?
    ensures var verified := Taken(floats, p, s.store.pending[k].words, ack, readBacks).value;
            Kept(config, floats, s, AcceptWrite(config, floats, s, k, p, verified), k, p, verified, readBacks)
  {
    hide Accepts, Lawful, DecodeRegisters, EncodeRegisters, DecodePayload, EncodePayload, WriteOutcome, FirstAt, NumberIn,
         Acknowledges, WritableAt, AcceptWrite, RecordsKept, RegistersKept, FirstConfirming;
    var write := s.store.pending[k];
    var verified := Taken(floats, p, write.words, ack, readBacks).value;
    var written := NumberIn(floats, write.words, p.modbusDataType).value;
    WritableFound(config.points, write.slave, write.address, |write.words|);
    WritableIsPublished(config, p);
    OutcomeIsTaken(floats, p, write.words, ack, readBacks);
    PublishesVerified(config, floats, p, write.words, ack, readBacks);
    FirstConfirmingIs(floats, p, written, readBacks);
    var j :| FirstAt(floats, p, written, readBacks, j, verified);
    if p.modbusDataType.Float32Type? {
      FloatsMatchNearly(floats, p, write.words, readBacks, j, verified);
    } else {
      IntegersMatchExactly(floats, p, write.words, readBacks, j, verified);
    }
    AcceptChangesRecords(config, floats, s, k, p, verified);
    AcceptChangesRegisters(config, floats, s, k, p, verified);
  }

  /** A handler ends one of two ways, and which one is decided by the written registers, the
      acknowledgement and the read-backs alone: publishing a confirmed value cannot fail. */
  lemma WriteIsAllOrNothing(config: GatewayConfig, floats: Floats, s: State, k: nat,
                            ack: Result<Option<OwenFrame>>, readBacks: seq<Result<OwenFrame>>)
    requires Accepts(config) && Lawful(floats) && k < |s.store.pending|
    ensures var write := s.store.pending[k];
            var after := EndHandler(config, floats, s, k, ack, readBacks);
            match WritableAt(config.points, write.slave, write.address, |write.words|)
            case None => Undone(s, after, k)
            case Some(p) =>
              match Taken(floats, p, write.words, ack, readBacks)
              case None => Undone(s, after, k)
              case Some(verified) => Kept(config, floats, s, after, k, p, verified, readBacks)
  {
    hide Accepts, Lawful, WritableAt, WriteOutcome, Taken, Undone, Kept, AcceptWrite, RejectWrite;
    var write := s.store.pending[k];
    var point := WritableAt(config.points, write.slave, write.address, |write.words|);
    RejectUndoes(s, k);
    if point.Some? {
      OutcomeIsTaken(floats, point.value, write.words, ack, readBacks);
      if Taken(floats, point.value, write.words, ack, readBacks).Some? {
        AcceptKeeps(config, floats, s, k, point.value, ack, readBacks);
      }
    }
  }

  /** A write is refused when no point answers to its registers, or no value is taken. */
  predicate Refused(config: GatewayConfig, floats: Floats, slave: int, address: int, words: seq<word>,
                    ack: Result<Option<OwenFrame>>, readBacks: seq<Result<OwenFrame>>)
  {
    match WritableAt(config.points, slave, address, |words|)
    case None => true
    case Some(p) => Taken(floats, p, words, ack, readBacks) == None
  }

  lemma RefusedIsFault(config: GatewayConfig, floats: Floats, slave: int, address: int, words: seq<word>,
                       ack: Result<Option<OwenFrame>>, readBacks: seq<Result<OwenFrame>>)
    requires Refused(config, floats, slave, address, words, ack, readBacks)
    ensures match WritableAt(config.points, slave, address, |words|)
            case None => true
            case Some(p) => WriteOutcome(floats, p, words, ack, readBacks).Err?
  {
    hide WritableAt, WriteOutcome, Taken;
    var point := WritableAt(config.points, slave, address, |words|);
    if point.Some? {
      OutcomeIsTaken(floats, point.value, words, ack, readBacks);
    }
  }

  /** A write whose handler refuses it with nothing in between leaves no trace. */
  lemma RefusedWriteLeavesNoTrace(config: GatewayConfig, floats: Floats, s: State, slave: int, address: int, words: seq<word>,
                                  ack: Result<Option<OwenFrame>>, readBacks: seq<Result<OwenFrame>>)
    requires |readBacks| == WRITE_VERIFY_ATTEMPTS && Refused(config, floats, slave, address, words, ack, readBacks)
    ensures var written := Step(config, floats, s, ClientRegisters(slave, address, words));
            var after := Step(config, floats, written, HandlerEnd(|s.store.pending|, ack, readBacks));
            && after == s.(store := after.store) && after.store.pending == s.store.pending
            && forall c :: At(after.store, c) == At(s.store, c)
  {
    hide WritableAt, WriteOutcome, Restore, AcceptWrite, ClientWrite, Refused;
    RefusedIsFault(config, floats, slave, address, words, ack, readBacks);
    var written := Step(config, floats, s, ClientRegisters(slave, address, words));
    var k := |s.store.pending|;
    NewestIsLast(s.store, slave, address, words);
    assert Step(config, floats, written, HandlerEnd(k, ack, readBacks)) == RejectWrite(written, k);
    WrittenAndRestored(s.store, slave, address, words);
  }

  lemma NewestIsLast(store: Store, slave: int, address: int, words: seq<word>)
    ensures var pending := ClientWrite(store, slave, address, words).pending;
            && |pending| == |store.pending| + 1
            && pending[|store.pending|] == PendingWrite(slave, address, words, ReadHolding(store, slave, address, |words|))
  {}

  lemma WrittenAndRestored(store: Store, slave: int, address: int, words: seq<word>)
    ensures var written := ClientWrite(store, slave, address, words);
            var k := |store.pending|;
            && k < |written.pending| && Restore(written, k).pending == store.pending
            && forall c :: At(Restore(written, k), c) == At(store, c)
  {
    hide Assigned, CellsFrom;
    var written, k := ClientWrite(store, slave, address, words), |store.pending|;
    var write, after := written.pending[k], Restore(written, k);
    var back := Write(slave, HoldingRegister, address, write.previous);
    assert Without(written.pending, k) == store.pending;
    forall c ensures At(after, c) == At(store, c) {
      if c in CellsOf(back) {
        var i := c.address - address;
        assert c == Cell(slave, HoldingRegister, address + i) && write.previous[i] == At(store, c);
        AssignedHere(written.registers, back, c);
      } else {
        AssignedElsewhere(store.registers, Write(slave, HoldingRegister, address, words), c);
        AssignedElsewhere(written.registers, back, c);
      }
    }
  }
}
