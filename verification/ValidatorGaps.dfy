/** What the validator lets through: for each gap, exactly when a publish goes wrong. */
module ValidatorGaps {
  import opened Core
  import opened Payload
  import opened Registers
  import opened Config
  import opened RegisterMap
  import opened Gateway
  import opened Layout
  import opened WriteHandling
  import opened Telemetry
  import opened Guarantees

  function ValueWrite(p: PointConfig, words: seq<word>): Write {
    Write(SlaveOf(p), p.registerType, p.modbusAddress, words)
  }

  /** A point's value cells hold `words`. */
  ghost predicate ValueHeld(store: Store, p: PointConfig, words: seq<word>) {
    forall i :: 0 <= i < |words| ==> At(store, ValueCell(p, i)) == Stored(p.registerType, words[i])
  }

  lemma ValuePublished(store: Store, p: PointConfig, words: seq<word>)
    ensures ValueHeld(Publish(store, ValueWrite(p, words)), p, words)
  {
    hide CellsFrom, PendingAmong, Assigned, Stored;
    forall i | 0 <= i < |words|
      ensures At(Publish(store, ValueWrite(p, words)), ValueCell(p, i)) == Stored(p.registerType, words[i])
    {
      AssignedHere(store.registers, ValueWrite(p, words), ValueCell(p, i));
    }
  }

  /* ---------- Metadata ---------- */

  function SharedMetadata(p: PointConfig, q: PointConfig): set<int> {
    if SlaveOf(q) == SlaveOf(p) && q.registerType == p.registerType then MetadataCells(q) * ValueCells(p) else {}
  }

  /** A word that a register does not hold for `w`. */
  function OtherThan(t: RegisterType, w: word): word { if Stored(t, w) == 0 then 1 else 0 }

  lemma MetadataMissesValue(store: Store, p: PointConfig, q: PointConfig, words: seq<word>, mark: word, status: word)
    requires |words| == Width(p.modbusDataType) && ValueHeld(store, p, words) && SharedMetadata(p, q) == {}
    ensures ValueHeld(PublishAll(store, MetadataWrites(q, Some(mark), status)), p, words)
  {
    hide PublishAll, Stored, CellsFrom;
    var writes := MetadataWrites(q, Some(mark), status);
    forall i | 0 <= i < |words| ensures At(PublishAll(store, writes), ValueCell(p, i)) == Stored(p.registerType, words[i]) {
      forall j | 0 <= j < |writes| ensures ValueCell(p, i) !in CellsOf(writes[j]) {
        assert p.modbusAddress + i !in SharedMetadata(p, q);
      }
      PublishedElsewhere(store, writes, ValueCell(p, i));
    }
  }

  lemma MetadataHitsValue(store: Store, p: PointConfig, q: PointConfig, words: seq<word>, a: int)
    requires |words| == Width(p.modbusDataType) && a in SharedMetadata(p, q)
    ensures exists mark: word, status: word ::
              !ValueHeld(PublishAll(store, MetadataWrites(q, Some(mark), status)), p, words)
  {
    hide PublishAll, Stored, CellsFrom, OtherThan;
    var i := a - p.modbusAddress;
    var other := OtherThan(p.registerType, words[i]);
    var writes := MetadataWrites(q, Some(other), other);
    var j := if q.channelStatusAddress == Some(a) then |writes| - 1 else 0;
    LastPublishHolds(store, writes, j, ValueCell(p, i));
    assert Stored(p.registerType, other) != Stored(p.registerType, words[i]) by { OtherIsOther(p.registerType, words[i]); }
    assert At(PublishAll(store, writes), ValueCell(p, i)) != Stored(p.registerType, words[i]);
  }

  lemma OtherIsOther(t: RegisterType, w: word)
    ensures Stored(t, OtherThan(t, w)) != Stored(t, w)
  {}

  /** Published after the value, metadata of `q` leaves it alone, whatever it says. */
  ghost predicate MetadataSpares(store: Store, p: PointConfig, q: PointConfig, words: seq<word>) {
    forall mark: word, status: word ::
      ValueHeld(PublishAll(Publish(store, ValueWrite(p, words)), MetadataWrites(q, Some(mark), status)), p, words)
  }

  /** A time mark and channel status, of the point itself or of any other, spare a point's
      value, whatever they are, exactly when they lie off its value registers. The validator
      never compares them for the point itself and for points that are not published. */
  lemma MetadataDecides(store: Store, p: PointConfig, q: PointConfig, words: seq<word>)
    requires |words| == Width(p.modbusDataType)
    ensures MetadataSpares(store, p, q, words) <==> SharedMetadata(p, q) == {}
  {
    hide PublishAll, Publish, MetadataWrites, ValueHeld, SharedMetadata;
    var published := Publish(store, ValueWrite(p, words));
    ValuePublished(store, p, words);
    if SharedMetadata(p, q) == {} {
      forall mark: word, status: word
        ensures ValueHeld(PublishAll(published, MetadataWrites(q, Some(mark), status)), p, words)
      {
        MetadataMissesValue(published, p, q, words, mark, status);
      }
    } else {
      var a := SomeElement(SharedMetadata(p, q));
      MetadataHitsValue(published, p, q, words, a);
    }
  }

  /* ---------- The logic mask ---------- */

  ghost predicate MaskSpares(store: Store, p: PointConfig, words: seq<word>) {
    forall mask: nat :: mask < 0x100 ==>
      ValueHeld(Publish(Publish(store, ValueWrite(p, words)), MaskWrite(SlaveOf(p), mask)), p, words)
  }

  /** A device's logic mask spares the value of one of its published holding-register
      points, whatever the mask is, exactly when register 48 is none of its value registers. */
  lemma MaskDecides(store: Store, p: PointConfig, words: seq<word>)
    requires p.registerType.HoldingRegister? && |words| == Width(p.modbusDataType)
    ensures MaskSpares(store, p, words) <==> MASK_REGISTER !in ValueCells(p)
  {
    hide CellsFrom, PendingAmong, Assigned;
    var published := Publish(store, ValueWrite(p, words));
    ValuePublished(store, p, words);
    forall mask: nat, i | mask < 0x100 && 0 <= i < |words|
      ensures At(Publish(published, MaskWrite(SlaveOf(p), mask)), ValueCell(p, i)) ==
              if p.modbusAddress + i == MASK_REGISTER then mask else At(published, ValueCell(p, i))
    {
      var w := MaskWrite(SlaveOf(p), mask);
      if p.modbusAddress + i == MASK_REGISTER {
        AssignedHere(published.registers, w, ValueCell(p, i));
      } else {
        AssignedElsewhere(published.registers, w, ValueCell(p, i));
      }
    }
    if MASK_REGISTER in ValueCells(p) {
      var i := MASK_REGISTER - p.modbusAddress;
      var other := OtherThan(p.registerType, words[i]);
      assert At(Publish(published, MaskWrite(SlaveOf(p), other)), ValueCell(p, i)) == other;
      assert !ValueHeld(Publish(published, MaskWrite(SlaveOf(p), other)), p, words);
    }
  }

  /** What cache agreement asks of a point's registers is exactly that no metadata of the
      configuration and no mask of the device can overwrite its value. */
  lemma SparedExactly(config: GatewayConfig, store: Store, p: PointConfig, words: seq<word>)
    requires Accepts(config) && p in config.points && p.publishToModbus && |words| == Width(p.modbusDataType)
    ensures ValueSpared(config, p) <==>
            && (p.registerType.HoldingRegister? ==> MaskSpares(store, p, words))
            && forall q :: q in config.points ==> MetadataSpares(store, p, q, words)
  {
    hide Accepts, MetadataSpares, MaskSpares, MetadataCells, ValueCells;
    if p.registerType.HoldingRegister? {
      MaskDecides(store, p, words);
    }
    forall q | q in config.points
      ensures MetadataSpares(store, p, q, words) <==> SharedMetadata(p, q) == {}
      ensures q != p && q.publishToModbus ==> SharedMetadata(p, q) == {}
    {
      MetadataDecides(store, p, q, words);
      if q != p && q.publishToModbus {
        PairFacts(config, p, q);
      }
    }
    forall q ensures SharedMetadata(p, q) == {} <==>
                     (SlaveOf(q) == SlaveOf(p) && q.registerType == p.registerType ==> MetadataCells(q) !! ValueCells(p))
    {
      MeetNowhere(MetadataCells(q), ValueCells(p));
    }
  }

  lemma MeetNowhere(a: set<int>, b: set<int>)
    ensures a * b == {} <==> a !! b
  {
    if a * b == {} {
      forall x | x in a ensures x !in b {
        assert x in b ==> x in a * b;
      }
    }
  }

  /* ---------- Status types ---------- */

  /** Publishing the four statuses works exactly when status registers are switched off or
      their type has registers. */
  lemma StatusDecides(config: GatewayConfig, floats: Floats)
    requires Lawful(floats)
    ensures (forall slave, status :: 1 <= status <= 4 && config.status.enabled ==>
               StatusWrites(config, floats, slave, status) != []) <==>
            !config.status.enabled || HasRegisters(config.status.dataType)
  {
    hide Lawful, EncodeRegisters;
    var t := config.status.dataType;
    forall status | 1 <= status <= 4 ensures EncodeRegisters(floats, Int(status), t).Ok? <==> HasRegisters(t) {
      StatusesEncode(floats, status, t);
    }
    if config.status.enabled && !HasRegisters(t) {
      assert StatusWrites(config, floats, SERVICE_SLAVE_ID, 1) == [];
    }
  }
}
