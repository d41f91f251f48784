/** Sidechain records, scheduled events and epoch arithmetic
    (src/sc/sidechain.h, src/sc/sidechain.cpp, and isCeasedAtHeight in src/coins.cpp). */
module Sidechain {
  import opened Coins

  type ScId = Hash

  const EPOCH_NULL: int := -1

  /** `withdrawalEpochLength` is the only creation parameter the ledger computes
      with; the proving key, constant and custom data travel along as `data`. */
  datatype CSidechain = CSidechain(
    creationBlockHash: Hash,
    creationBlockHeight: int,
    creationTxHash: Hash,
    lastEpoch: int,
    lastCertHash: Hash,
    balance: int,
    epochLength: int,
    data: seq<nat>,
    immature: map<int, int>)

  /** The default-constructed `CSidechain`. */
  const DEFAULT_SC := CSidechain(NULL_HASH, -1, NULL_HASH, EPOCH_NULL, NULL_HASH, 0, -1, [], map[])

  datatype ScEvents = ScEvents(ceasing: set<ScId>, maturing: set<ScId>) {
    predicate IsNull() { ceasing == {} && maturing == {} }
  }

  const NO_EVENTS := ScEvents({}, {})

  datatype ScState = NotApplicable | Alive | Ceased

  /** Division truncating towards zero, as the source's `int` division does. */
  function TruncDiv(a: int, b: int): int
    requires b != 0
  {
    if a >= 0 then a / b else -((-a) / b)
  }

  function EpochFor(sc: CSidechain, height: int): int
    requires sc.epochLength != 0
  {
    if sc.creationBlockHeight == -1 then EPOCH_NULL
    else TruncDiv(height - sc.creationBlockHeight, sc.epochLength)
  }

  function StartHeightForEpoch(sc: CSidechain, epoch: int): int {
    if sc.creationBlockHeight == -1 then -1
    else sc.creationBlockHeight + epoch * sc.epochLength
  }

  function SafeguardMargin(sc: CSidechain): int {
    if sc.epochLength == -1 then -1 else TruncDiv(sc.epochLength, 5)
  }

  /** The block height whose events void the sidechain, given its last certificate. */
  function CeasingHeight(sc: CSidechain): int {
    StartHeightForEpoch(sc, sc.lastEpoch + 2) + SafeguardMargin(sc) + 1
  }

  /** `GetCeasingHeight`, which the source announces. */
  function GetCeasingHeight(sc: CSidechain): int {
    if sc.epochLength == -1 then -1 else StartHeightForEpoch(sc, sc.lastEpoch + 2) + SafeguardMargin(sc)
  }

  /** A created sidechain: the parameters that CheckTransaction and the ledger guarantee. */
  predicate Created(sc: CSidechain) {
    sc.creationBlockHeight >= 0 && sc.epochLength >= 1 && sc.lastEpoch >= EPOCH_NULL
  }

  /** `CCoinsViewCache::isCeasedAtHeight` for a sidechain that exists. */
  function StateAtHeight(sc: CSidechain, height: int): ScState
    requires sc.epochLength != 0
  {
    if height < sc.creationBlockHeight then NotApplicable
    else
      var epoch := EpochFor(sc, height);
      if epoch > sc.lastEpoch + 2 then Ceased
      else if epoch == sc.lastEpoch + 2
              && height > StartHeightForEpoch(sc, epoch) + SafeguardMargin(sc) then Ceased
      else Alive
  }

  lemma {:induction false} EpochBounds(sc: CSidechain, height: int)
    requires Created(sc) && height >= sc.creationBlockHeight
    ensures var e := EpochFor(sc, height);
            e >= 0 && StartHeightForEpoch(sc, e) <= height < StartHeightForEpoch(sc, e + 1)
  {
    var d := height - sc.creationBlockHeight;
    var l := sc.epochLength;
    assert d == d / l * l + d % l;
    assert (d / l + 1) * l == d / l * l + l;
  }

  lemma {:induction false} StartIsMonotone(sc: CSidechain, a: int, b: int)
    requires Created(sc) && a <= b
    ensures StartHeightForEpoch(sc, a) + (b - a) <= StartHeightForEpoch(sc, b)
    ensures b == a + 1 ==> StartHeightForEpoch(sc, b) == StartHeightForEpoch(sc, a) + sc.epochLength
  {
    var l := sc.epochLength;
    assert b * l == a * l + (b - a) * l;
    assert (b - a) * l >= b - a by {
      var k := b - a;
      assert k * l == k * (l - 1) + k;
      assert k * (l - 1) >= 0;
    }
  }

  /** `CeasingHeight` is exactly the first height at which the sidechain is ceased. */
  lemma {:induction false} CeasedFromCeasingHeight(sc: CSidechain, height: int)
    requires Created(sc) && height >= sc.creationBlockHeight
    ensures StateAtHeight(sc, height) == if height >= CeasingHeight(sc) then Ceased else Alive
  {
    var e := EpochFor(sc, height);
    var t := sc.lastEpoch + 2;
    EpochBounds(sc, height);
    if e > t {
      StartIsMonotone(sc, t, t + 1);
      StartIsMonotone(sc, t + 1, e);
    } else if e < t {
      StartIsMonotone(sc, e + 1, t);
    }
  }

  /** The announced ceasing height is the last height at which the sidechain is alive, one less than the first at which
      it is ceased. */
  lemma {:induction false} AnnouncedHeightIsAlive(sc: CSidechain)
    requires Created(sc)
    ensures StateAtHeight(sc, GetCeasingHeight(sc)).Alive? && StateAtHeight(sc, GetCeasingHeight(sc) + 1).Ceased?
    ensures forall k :: k >= sc.creationBlockHeight ==> (StateAtHeight(sc, k).Ceased? <==> k > GetCeasingHeight(sc))
  {
    hide StateAtHeight;
    var last := GetCeasingHeight(sc);
    StartIsMonotone(sc, 0, sc.lastEpoch + 2);
    forall k | k >= sc.creationBlockHeight
      ensures StateAtHeight(sc, k) == if k > last then Ceased else Alive
    {
      CeasedFromCeasingHeight(sc, k);
    }
  }

  /** The ceasing height of a new sidechain lies after its creation. */
  lemma {:induction false} CeasingHeightAfterCreation(sc: CSidechain)
    requires Created(sc)
    ensures CeasingHeight(sc) > sc.creationBlockHeight
  {
    StartIsMonotone(sc, 0, sc.lastEpoch + 2);
  }

  /** A certificate for the next epoch moves the ceasing height by one epoch. */
  lemma {:induction false} CeasingHeightAfterCert(sc: CSidechain, sc': CSidechain)
    requires Created(sc)
    requires sc' == sc.(lastEpoch := sc.lastEpoch + 1, balance := sc'.balance, lastCertHash := sc'.lastCertHash)
    ensures CeasingHeight(sc') == CeasingHeight(sc) + sc.epochLength
  {
    StartIsMonotone(sc, sc.lastEpoch + 2, sc.lastEpoch + 3);
  }
}
