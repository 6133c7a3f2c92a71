/** The Modbus map as cells, with the client writes whose handlers are still running.

    `stale` is a history: the cells whose content no longer follows from the gateway's own
    publishes, because a publish or a second client write hit them while a write was in
    flight, or because a client wrote a coil. A publish to a cell that no write is in flight
    on makes it current again. */
module RegisterMap {
  import opened Core
  import opened Config

  datatype Cell = Cell(slave: int, registerType: RegisterType, address: int)

  datatype Write = Write(slave: int, registerType: RegisterType, address: int, words: seq<word>)

  datatype PendingWrite = PendingWrite(slave: int, address: int, words: seq<word>, previous: seq<word>)

  datatype Store = Store(registers: map<Cell, word>, pending: seq<PendingWrite>, stale: set<Cell>)

  function At(store: Store, c: Cell): word {
    if c in store.registers then store.registers[c] else 0
  }

  /** Coils and discrete inputs keep truth values. */
  function Stored(t: RegisterType, w: word): word {
    if t.Coil? || t.DiscreteInput? then (if w != 0 then 1 else 0) else w
  }

  function CellsFrom(slave: int, t: RegisterType, address: int, width: nat): (cells: set<Cell>)
    ensures forall c :: c in cells <==>
              c.slave == slave && c.registerType == t && address <= c.address < address + width
  {
    if width == 0 then {}
    else CellsFrom(slave, t, address, width - 1) + {Cell(slave, t, address + width - 1)}
  }

  function CellsOf(w: Write): set<Cell> { CellsFrom(w.slave, w.registerType, w.address, |w.words|) }

  function PendingCells(p: PendingWrite): set<Cell> { CellsFrom(p.slave, HoldingRegister, p.address, |p.words|) }

  function Assigned(registers: map<Cell, word>, w: Write): map<Cell, word> {
    registers + map c | c in CellsOf(w) :: Stored(w.registerType, w.words[c.address - w.address])
  }

  predicate IsPending(pending: seq<PendingWrite>, c: Cell) {
    exists k :: 0 <= k < |pending| && c in PendingCells(pending[k])
  }

  function PendingAmong(pending: seq<PendingWrite>, cells: set<Cell>): set<Cell> {
    set c | c in cells && IsPending(pending, c)
  }

  /** A publish by the gateway. */
  function Publish(store: Store, w: Write): Store {
    Store(Assigned(store.registers, w), store.pending,
          store.stale - CellsOf(w) + PendingAmong(store.pending, CellsOf(w)))
  }

  function PublishAll(store: Store, writes: seq<Write>): Store
    decreases |writes|
  {
    if writes == [] then store else PublishAll(Publish(store, writes[0]), writes[1..])
  }

  function ReadHolding(store: Store, slave: int, address: int, count: nat): (words: seq<word>)
    ensures |words| == count
  {
    seq<word>(count, i => At(store, Cell(slave, HoldingRegister, address + i)))
  }

  /** A client's write to holding registers: the block changes at once, a handler starts. */
  function ClientWrite(store: Store, slave: int, address: int, words: seq<word>): Store {
    var w := Write(slave, HoldingRegister, address, words);
    Store(Assigned(store.registers, w),
          store.pending + [PendingWrite(slave, address, words, ReadHolding(store, slave, address, |words|))],
          store.stale + PendingAmong(store.pending, CellsOf(w)))
  }

  /** A client's write to coils: no handler watches that block. */
  function CoilWrite(store: Store, slave: int, address: int, bits: seq<word>): Store {
    var w := Write(slave, Coil, address, bits);
    Store(Assigned(store.registers, w), store.pending, store.stale + CellsOf(w))
  }

  function Without(pending: seq<PendingWrite>, k: nat): seq<PendingWrite>
    requires k < |pending|
  {
    pending[..k] + pending[k + 1..]
  }

  /** A handler ends; what it does to the registers then is a publish or a restore. */
  function Withdraw(store: Store, k: nat): Store
    requires k < |store.pending|
  {
    store.(pending := Without(store.pending, k))
  }

  function Restore(store: Store, k: nat): Store
    requires k < |store.pending|
  {
    var p := store.pending[k];
    Store(Assigned(store.registers, Write(p.slave, HoldingRegister, p.address, p.previous)),
          Without(store.pending, k), store.stale)
  }

  /* ---------- What the registers would hold without the writes in flight ---------- */

  predicate WellFormed(pending: seq<PendingWrite>) {
    forall k :: 0 <= k < |pending| ==> |pending[k].previous| == |pending[k].words|
  }

  function BaseOf(pending: seq<PendingWrite>, c: Cell, current: word): word
    requires WellFormed(pending)
  {
    if pending == [] then current
    else if c in PendingCells(pending[0]) then pending[0].previous[c.address - pending[0].address]
    else BaseOf(pending[1..], c, current)
  }

  /** Every cell that two writes in flight share is stale. */
  ghost predicate OverlapsAreStale(store: Store) {
    forall j, k, c ::
      0 <= j < k < |store.pending| && c in PendingCells(store.pending[j]) && c in PendingCells(store.pending[k]) ==>
        c in store.stale
  }

  ghost predicate Tracked(store: Store) {
    WellFormed(store.pending) && OverlapsAreStale(store)
  }

  /** Apart from stale cells, and undoing the writes in flight, the cells of `w` hold `w`. */
  ghost predicate Shows(store: Store, w: Write)
    requires WellFormed(store.pending)
  {
    forall c :: c in CellsOf(w) && c !in store.stale ==>
      BaseOf(store.pending, c, At(store, c)) == Stored(w.registerType, w.words[c.address - w.address])
  }

  lemma {:induction false} BaseWithoutCover(pending: seq<PendingWrite>, c: Cell, current: word)
    requires WellFormed(pending) && !IsPending(pending, c)
    ensures BaseOf(pending, c, current) == current
  {
    if pending != [] {
      assert c !in PendingCells(pending[0]);
      assert forall k :: 0 <= k < |pending[1..]| ==> pending[1..][k] == pending[k + 1];
      BaseWithoutCover(pending[1..], c, current);
    }
  }

  lemma {:induction false} BaseWithNewWrite(pending: seq<PendingWrite>, p: PendingWrite, c: Cell, current: word)
    requires WellFormed(pending) && |p.previous| == |p.words|
    requires IsPending(pending, c) ==> c !in PendingCells(p)
    ensures WellFormed(pending + [p])
    ensures BaseOf(pending + [p], c, current) ==
            if c in PendingCells(p) then p.previous[c.address - p.address] else BaseOf(pending, c, current)
    decreases |pending|
  {
    assert (pending + [p])[|pending|] == p;
    if pending == [] {
      assert [p][1..] == [];
    } else {
      assert (pending + [p])[1..] == pending[1..] + [p];
      assert forall k :: 0 <= k < |pending[1..]| ==> pending[1..][k] == pending[k + 1];
      if c !in PendingCells(pending[0]) {
        BaseWithNewWrite(pending[1..], p, c, current);
      } else {
        assert IsPending(pending, c);
      }
    }
  }

  predicate OnlyCover(pending: seq<PendingWrite>, k: nat, c: Cell) {
    forall j :: 0 <= j < |pending| && j != k ==> c !in PendingCells(pending[j])
  }

  lemma NotPendingBehind(pending: seq<PendingWrite>, c: Cell)
    requires pending != [] && OnlyCover(pending, 0, c)
    ensures !IsPending(pending[1..], c)
  {
    hide PendingCells;
    assert forall j :: 0 <= j < |pending| - 1 ==> pending[1..][j] == pending[j + 1];
  }

  /** Removing a write that does not cover a cell, or the only one that does. */
  lemma {:induction false} BaseWithoutWrite(pending: seq<PendingWrite>, k: nat, c: Cell, current: word)
    requires WellFormed(pending) && k < |pending|
    ensures WellFormed(Without(pending, k))
    ensures c !in PendingCells(pending[k]) ==> BaseOf(Without(pending, k), c, current) == BaseOf(pending, c, current)
    ensures c in PendingCells(pending[k]) && OnlyCover(pending, k, c) ==>
              && BaseOf(Without(pending, k), c, current) == current
              && BaseOf(pending, c, current) == pending[k].previous[c.address - pending[k].address]
    decreases |pending|
  {
    hide PendingCells, CellsFrom;
    var rest := pending[1..];
    assert forall j :: 0 <= j < |rest| ==> rest[j] == pending[j + 1];
    if k == 0 {
      assert Without(pending, 0) == rest;
      if OnlyCover(pending, 0, c) {
        NotPendingBehind(pending, c);
        BaseWithoutCover(rest, c, current);
      }
    } else {
      BaseWithoutWrite(rest, k - 1, c, current);
      WithoutTail(pending, k);
      assert OnlyCover(pending, k, c) ==> OnlyCover(rest, k - 1, c) && c !in PendingCells(pending[0]);
    }
  }

  lemma WithoutTail(pending: seq<PendingWrite>, k: nat)
    requires 0 < k < |pending|
    ensures Without(pending, k) == [pending[0]] + Without(pending[1..], k - 1)
    ensures Without(pending, k)[1..] == Without(pending[1..], k - 1)
  {}

  /* ---------- How each step treats what is shown ---------- */

  lemma PublishShows(store: Store, w: Write)
    requires Tracked(store)
    ensures Tracked(Publish(store, w)) && Shows(Publish(store, w), w)
  {
    var after := Publish(store, w);
    forall c | c in CellsOf(w) && c !in after.stale
      ensures BaseOf(after.pending, c, At(after, c)) == Stored(w.registerType, w.words[c.address - w.address])
    {
      assert !IsPending(store.pending, c);
      BaseWithoutCover(store.pending, c, At(after, c));
    }
    PublishTracks(store, w);
  }

  lemma PublishTracks(store: Store, w: Write)
    requires Tracked(store)
    ensures Tracked(Publish(store, w))
  {
    var after := Publish(store, w);
    forall j, k, c | 0 <= j < k < |after.pending| && c in PendingCells(after.pending[j]) && c in PendingCells(after.pending[k])
      ensures c in after.stale
    {
      assert IsPending(store.pending, c);
    }
  }

  lemma PublishKeeps(store: Store, w: Write, other: Write)
    requires Tracked(store) && Shows(store, other) && CellsOf(w) !! CellsOf(other)
    ensures Tracked(Publish(store, w)) && Shows(Publish(store, w), other)
  {
    PublishTracks(store, w);
  }

  lemma ClientWriteBase(store: Store, slave: int, address: int, words: seq<word>, c: Cell)
    requires Tracked(store)
    ensures var after := ClientWrite(store, slave, address, words);
            WellFormed(after.pending) &&
            (c !in after.stale ==> BaseOf(after.pending, c, At(after, c)) == BaseOf(store.pending, c, At(store, c)))
  {
    hide BaseOf, Assigned, OverlapsAreStale;
    var after := ClientWrite(store, slave, address, words);
    var p := PendingWrite(slave, address, words, ReadHolding(store, slave, address, |words|));
    assert after.pending == store.pending + [p];
    SameCells(slave, address, words, p.previous);
    if c !in after.stale {
      BaseWithNewWrite(store.pending, p, c, At(after, c));
      if c in PendingCells(p) {
        assert p.previous[c.address - address] == At(store, c);
        BaseWithoutCover(store.pending, c, At(store, c));
      } else {
        AssignedElsewhere(store.registers, Write(slave, HoldingRegister, address, words), c);
      }
    }
  }

  lemma SameCells(slave: int, address: int, words: seq<word>, previous: seq<word>)
    ensures PendingCells(PendingWrite(slave, address, words, previous)) == CellsOf(Write(slave, HoldingRegister, address, words))
  {}

  lemma AssignedElsewhere(registers: map<Cell, word>, w: Write, c: Cell)
    requires c !in CellsOf(w)
    ensures c in Assigned(registers, w) <==> c in registers
    ensures c in registers ==> Assigned(registers, w)[c] == registers[c]
  {}

  lemma AssignedHere(registers: map<Cell, word>, w: Write, c: Cell)
    requires c in CellsOf(w)
    ensures c in Assigned(registers, w)
    ensures Assigned(registers, w)[c] == Stored(w.registerType, w.words[c.address - w.address])
  {
    hide CellsFrom, Stored;
  }

  lemma ClientWriteKeeps(store: Store, slave: int, address: int, words: seq<word>, other: Write)
    requires Tracked(store) && Shows(store, other)
    ensures Tracked(ClientWrite(store, slave, address, words))
    ensures Shows(ClientWrite(store, slave, address, words), other)
  {
    hide ClientWrite, BaseOf, OverlapsAreStale;
    var after := ClientWrite(store, slave, address, words);
    ClientWriteTracks(store, slave, address, words);
    assert store.stale <= after.stale by { StaleGrows(store, slave, address, words); }
    forall c | c in CellsOf(other) && c !in after.stale
      ensures BaseOf(after.pending, c, At(after, c)) == Stored(other.registerType, other.words[c.address - other.address])
    {
      ClientWriteBase(store, slave, address, words, c);
    }
  }

  lemma StaleGrows(store: Store, slave: int, address: int, words: seq<word>)
    ensures store.stale <= ClientWrite(store, slave, address, words).stale
  {}

  lemma ClientWriteTracks(store: Store, slave: int, address: int, words: seq<word>)
    requires Tracked(store)
    ensures Tracked(ClientWrite(store, slave, address, words))
  {
    var after := ClientWrite(store, slave, address, words);
    var last := |store.pending|;
    assert forall k :: 0 <= k < last ==> after.pending[k] == store.pending[k];
    forall j, k, c | 0 <= j < k < |after.pending| && c in PendingCells(after.pending[j]) && c in PendingCells(after.pending[k])
      ensures c in after.stale
    {
      if k == last {
        assert IsPending(store.pending, c);
        assert c in CellsOf(Write(slave, HoldingRegister, address, words));
      }
    }
  }

  lemma CoilWriteKeeps(store: Store, slave: int, address: int, bits: seq<word>, other: Write)
    requires Tracked(store) && Shows(store, other)
    ensures Tracked(CoilWrite(store, slave, address, bits)) && Shows(CoilWrite(store, slave, address, bits), other)
  {}

  lemma WithoutTracks(store: Store, k: nat)
    requires Tracked(store) && k < |store.pending|
    ensures Tracked(Withdraw(store, k)) && Tracked(Restore(store, k))
  {
    var rest := Without(store.pending, k);
    assert forall i :: 0 <= i < |rest| ==> rest[i] == store.pending[if i < k then i else i + 1];
    forall i, j, c | 0 <= i < j < |rest| && c in PendingCells(rest[i]) && c in PendingCells(rest[j])
      ensures c in store.stale
    {
      assert c in PendingCells(store.pending[if i < k then i else i + 1]);
      assert c in PendingCells(store.pending[if j < k then j else j + 1]);
    }
  }

  lemma WithdrawKeeps(store: Store, k: nat, other: Write)
    requires Tracked(store) && k < |store.pending| && Shows(store, other)
    requires PendingCells(store.pending[k]) !! CellsOf(other)
    ensures Tracked(Withdraw(store, k)) && Shows(Withdraw(store, k), other)
  {
    WithoutTracks(store, k);
    forall c | c in CellsOf(other) && c !in store.stale
      ensures BaseOf(Without(store.pending, k), c, At(store, c)) == BaseOf(store.pending, c, At(store, c))
    {
      BaseWithoutWrite(store.pending, k, c, At(store, c));
    }
  }

  lemma RestoreBase(store: Store, k: nat, c: Cell)
    requires Tracked(store) && k < |store.pending| && c !in store.stale
    ensures var after := Restore(store, k);
            WellFormed(after.pending) && BaseOf(after.pending, c, At(after, c)) == BaseOf(store.pending, c, At(store, c))
  {
    var p, after := store.pending[k], Restore(store, k);
    BaseWithoutWrite(store.pending, k, c, At(store, c));
    BaseWithoutWrite(store.pending, k, c, At(after, c));
    if c in PendingCells(p) {
      forall j | 0 <= j < |store.pending| && j != k ensures c !in PendingCells(store.pending[j]) {
        assert j < k || k < j;
      }
      assert OnlyCover(store.pending, k, c);
    }
  }

  /** A refused write leaves every owner's cells as they were. */
  lemma RestoreKeeps(store: Store, k: nat, other: Write)
    requires Tracked(store) && k < |store.pending| && Shows(store, other)
    ensures Tracked(Restore(store, k)) && Shows(Restore(store, k), other)
  {
    hide BaseOf, OverlapsAreStale;
    var after := Restore(store, k);
    WithoutTracks(store, k);
    forall c | c in CellsOf(other) && c !in after.stale
      ensures BaseOf(after.pending, c, At(after, c)) == Stored(other.registerType, other.words[c.address - other.address])
    {
      RestoreBase(store, k, c);
    }
  }

  /** When no write is in flight on a cell and it is not stale, it holds what is shown. */
  lemma ShownCellsHold(store: Store, w: Write, c: Cell)
    requires Tracked(store) && Shows(store, w) && c in CellsOf(w)
    requires !IsPending(store.pending, c) && c !in store.stale
    ensures At(store, c) == Stored(w.registerType, w.words[c.address - w.address])
  {
    BaseWithoutCover(store.pending, c, At(store, c));
  }

  lemma {:induction false} PublishAllKeeps(store: Store, writes: seq<Write>, other: Write)
    requires Tracked(store) && Shows(store, other)
    requires forall i :: 0 <= i < |writes| ==> CellsOf(writes[i]) !! CellsOf(other)
    ensures Tracked(PublishAll(store, writes)) && Shows(PublishAll(store, writes), other)
    decreases |writes|
  {
    if writes != [] {
      PublishKeeps(store, writes[0], other);
      PublishAllKeeps(Publish(store, writes[0]), writes[1..], other);
    }
  }

  lemma {:induction false} PublishAllTracks(store: Store, writes: seq<Write>)
    requires Tracked(store)
    ensures Tracked(PublishAll(store, writes))
    decreases |writes|
  {
    if writes != [] {
      PublishTracks(store, writes[0]);
      PublishAllTracks(Publish(store, writes[0]), writes[1..]);
    }
  }

  /** Of several publishes, one shows if the later ones stay off its cells. */
  lemma {:induction false} PublishAllShows(store: Store, writes: seq<Write>, i: nat)
    requires Tracked(store) && i < |writes|
    requires forall j :: i < j < |writes| ==> CellsOf(writes[j]) !! CellsOf(writes[i])
    ensures Tracked(PublishAll(store, writes)) && Shows(PublishAll(store, writes), writes[i])
    decreases i
  {
    var rest := writes[1..];
    assert forall j :: 0 <= j < |rest| ==> rest[j] == writes[j + 1];
    PublishTracks(store, writes[0]);
    if i == 0 {
      PublishShows(store, writes[0]);
      PublishAllKeeps(Publish(store, writes[0]), rest, writes[0]);
    } else {
      PublishAllShows(Publish(store, writes[0]), rest, i - 1);
    }
  }

  lemma {:induction false} PublishAllConcat(store: Store, a: seq<Write>, b: seq<Write>)
    ensures PublishAll(store, a + b) == PublishAll(PublishAll(store, a), b)
    decreases |a|
  {
    if a == [] {
      assert a + b == b;
    } else {
      assert (a + b)[1..] == a[1..] + b;
      PublishAllConcat(Publish(store, a[0]), a[1..], b);
    }
  }

  lemma {:induction false} PendingAfterAll(store: Store, writes: seq<Write>)
    ensures PublishAll(store, writes).pending == store.pending
    decreases |writes|
  {
    if writes != [] {
      PendingAfterAll(Publish(store, writes[0]), writes[1..]);
    }
  }

  /** Nobody has written. */
  predicate Quiet(store: Store) { store.pending == [] && store.stale == {} }

  lemma {:induction false} QuietAfterAll(store: Store, writes: seq<Write>)
    requires Quiet(store)
    ensures Quiet(PublishAll(store, writes))
    decreases |writes|
  {
    hide Assigned, CellsFrom;
    if writes != [] {
      assert Publish(store, writes[0]).stale == {};
      QuietAfterAll(Publish(store, writes[0]), writes[1..]);
    }
  }
}
