/**
 * The fixed-offset reads of `attachAccountData`: seven fields taken from the
 * `<b>` elements of `tr`s 3, 7, 9 and 11 of the Account page and stored
 * without any emptiness test. A missing `tr` or `<b>` raises, and the writes
 * made before it stay in the record.
 */
module Fixed {
  import opened Wrappers
  import opened Text
  import opened Stores

  const RealEstateId: string := "Real Estate ID"
  const Pin: string := "PIN #"
  const LocationAddress: string := "Location Address"
  const PropertyDescription: string := "Property Description"
  const PropertyOwner: string := "Property Owner"
  const MailingAddress: string := "Owner's Mailing Address"
  const PropertyLocationAddress: string := "Property Location Address"

  /** The index of the `tr` whose nested `tr`s are the detail rows. */
  const DetailTr: nat := 22

  /** The failure of a lookup whose `tr` or `<b>` is missing (an `IndexError` or `AttributeError`). */
  const MissingCell: string := "missing cell"

  /** Where a field is read from: one `<b>` of a `tr`, or two of them joined. */
  datatype Source = One(tr: nat, b: nat) | Pair(tr: nat, first: nat, second: nat)

  /** The seven keys of the fixed-offset reads, in the order they are stored. */
  const FixedKeys: seq<string> :=
    [RealEstateId, Pin, LocationAddress, PropertyDescription, PropertyOwner, MailingAddress, PropertyLocationAddress]

  /** Where each of the seven values is read from, in the same order. */
  const Sources: seq<Source> :=
    [One(3, 0), One(3, 1), One(7, 0), One(7, 1), One(11, 0), Pair(9, 2, 3), Pair(9, 5, 6)]

  /** Whether reading from `src` succeeds: the `tr` and its `<b>`s exist, else Python raises. */
  predicate Present(bolds: seq<seq<string>>, src: Source) {
    match src
    case One(t, b) => t < |bolds| && b < |bolds[t]|
    case Pair(t, b1, b2) => t < |bolds| && b1 < |bolds[t]| && b2 < |bolds[t]|
  }

  /**
   * The value stored for `src`: one bold text cleaned with stripping, or two
   * stripped bold texts joined by one space and cleaned without stripping.
   */
  function Value(bolds: seq<seq<string>>, src: Source): string
    requires Present(bolds, src)
  {
    match src
    case One(t, b) => CleanString(bolds[t][b], true)
    case Pair(t, b1, b2) => CleanString(Strip(bolds[t][b1]) + " " + Strip(bolds[t][b2]), false)
  }

  /** The value read from `src`, or None where the lookup raises. */
  function Read(bolds: seq<seq<string>>, src: Source): Option<string> {
    if Present(bolds, src) then Some(Value(bolds, src)) else None
  }

  /** The fixed writes from the `k`-th on, in the order they are made. */
  function WritesFrom(bolds: seq<seq<string>>, k: nat): seq<Write>
    decreases |Sources| - k
  {
    if k >= |Sources| then [] else [(FixedKeys[k], Read(bolds, Sources[k]))] + WritesFrom(bolds, k + 1)
  }

  /** The seven writes of scraper.py:55-68 on this page, in the order they are made. */
  function FixedWrites(bolds: seq<seq<string>>): seq<Write> {
    WritesFrom(bolds, 0)
  }

  /** There is one write from the `k`-th on for each remaining source. */
  lemma {:induction false} WritesFromLength(bolds: seq<seq<string>>, k: nat)
    requires k <= |Sources|
    ensures |WritesFrom(bolds, k)| == |Sources| - k
    decreases |Sources| - k
  {
    if k < |Sources| {
      WritesFromLength(bolds, k + 1);
    }
  }

  /** The `i`-th write from the `k`-th on is the `(k + i)`-th of the layout. */
  lemma {:induction false} WritesFromAt(bolds: seq<seq<string>>, k: nat, i: nat)
    requires k + i < |Sources|
    ensures |WritesFrom(bolds, k)| == |Sources| - k
    ensures WritesFrom(bolds, k)[i] == (FixedKeys[k + i], Read(bolds, Sources[k + i]))
    decreases i
  {
    WritesFromLength(bolds, k);
    if i > 0 {
      WritesFromAt(bolds, k + 1, i - 1);
      assert WritesFrom(bolds, k)[i] == WritesFrom(bolds, k + 1)[i - 1];
    }
  }

  /** The `i`-th fixed write stores the `i`-th key with the value read from the `i`-th source. */
  lemma FixedWritesAt(bolds: seq<seq<string>>)
    ensures |FixedWrites(bolds)| == |Sources|
    ensures forall i :: 0 <= i < |Sources| ==> FixedWrites(bolds)[i] == (FixedKeys[i], Read(bolds, Sources[i]))
  {
    WritesFromAt(bolds, 0, 0);
    forall i | 0 <= i < |Sources|
      ensures FixedWrites(bolds)[i] == (FixedKeys[i], Read(bolds, Sources[i]))
    {
      WritesFromAt(bolds, 0, i);
    }
  }

  /** The page has every `tr` and `<b>` that the fixed-offset reads use. */
  predicate Readable(bolds: seq<seq<string>>) {
    |bolds| > 11 && |bolds[3]| >= 2 && |bolds[7]| >= 2 && |bolds[9]| >= 7 && |bolds[11]| >= 1
  }

  /** On a readable page every read of the layout finds its cell. */
  lemma ReadableAllPresent(bolds: seq<seq<string>>, i: nat)
    requires Readable(bolds) && i < |Sources|
    ensures Present(bolds, Sources[i])
  {
  }

  /** A page that is not readable misses the cell of some read of the layout. */
  lemma UnreadableSomeMissing(bolds: seq<seq<string>>) returns (m: nat)
    requires !Readable(bolds)
    ensures m < |Sources| && !Present(bolds, Sources[m])
  {
    if |bolds| <= 3 || |bolds[3]| < 1 {
      m := 0;
    } else if |bolds[3]| < 2 {
      m := 1;
    } else if |bolds| <= 7 || |bolds[7]| < 1 {
      m := 2;
    } else if |bolds[7]| < 2 {
      m := 3;
    } else if |bolds| <= 11 || |bolds[11]| < 1 {
      m := 4;
    } else if |bolds[9]| < 4 {
      m := 5;
    } else {
      m := 6;
    }
  }

  /** The fixed-offset reads all succeed exactly on a page that has every cell they use. */
  lemma FixedReadsSucceed(data: map<string, string>, bolds: seq<seq<string>>)
    ensures Store(data, FixedWrites(bolds)).1 <==> Readable(bolds)
  {
    StoreCompletes(data, FixedWrites(bolds));
    FixedWritesAt(bolds);
    if Readable(bolds) {
      forall i | 0 <= i < |Sources|
        ensures FixedWrites(bolds)[i].1.Some?
      {
        ReadableAllPresent(bolds, i);
      }
    } else {
      var m := UnreadableSomeMissing(bolds);
      assert FixedWrites(bolds)[m].1.None?;
    }
  }

  /** The seven keys differ pairwise: by length, or else by their first character. */
  lemma KeysDistinct(i: nat, j: nat)
    requires i < j < |Sources|
    ensures FixedKeys[i] != FixedKeys[j]
  {
    if |FixedKeys[i]| == |FixedKeys[j]| {
      assert i == 0 && j == 4;
      assert FixedKeys[i][0] != FixedKeys[j][0];
    }
  }

  /** One fixed write whose read succeeds: it is made, then the rest follow. */
  lemma FixedStep(data: map<string, string>, bolds: seq<seq<string>>, k: nat)
    requires k < |Sources| && Present(bolds, Sources[k])
    ensures Store(data, WritesFrom(bolds, k))
            == Store(data[FixedKeys[k] := Value(bolds, Sources[k])], WritesFrom(bolds, k + 1))
  {
    StoreStep(data, WritesFrom(bolds, k));
  }

  /** FixedStep for a write from a single `<b>`, with its key and cell named. */
  lemma FixedStepOne(data: map<string, string>, bolds: seq<seq<string>>, k: nat, key: string, t: nat, b: nat)
    requires k < |Sources| && FixedKeys[k] == key && Sources[k] == One(t, b)
    requires t < |bolds| && b < |bolds[t]|
    ensures Store(data, WritesFrom(bolds, k))
            == Store(data[key := CleanString(bolds[t][b], true)], WritesFrom(bolds, k + 1))
  {
    FixedStep(data, bolds, k);
  }

  /** One fixed read that raises: nothing more is written. */
  lemma FixedStop(data: map<string, string>, bolds: seq<seq<string>>, k: nat)
    requires k < |Sources| && !Present(bolds, Sources[k])
    ensures Store(data, WritesFrom(bolds, k)) == (data, false)
  {
  }

  /** On a readable page every fixed write from the `k`-th on carries a value. */
  lemma {:induction false} ReadableAllRead(bolds: seq<seq<string>>, k: nat)
    requires Readable(bolds)
    ensures forall j :: 0 <= j < |WritesFrom(bolds, k)| ==> WritesFrom(bolds, k)[j].1.Some?
    decreases |Sources| - k
  {
    if k < |Sources| {
      var rest := WritesFrom(bolds, k + 1);
      ReadableAllPresent(bolds, k);
      ReadableAllRead(bolds, k + 1);
      assert forall j :: 0 < j <= |rest| ==> WritesFrom(bolds, k)[j] == rest[j - 1];
    }
  }

  /** No fixed write after the `i`-th names the `i`-th key again. */
  lemma LaterKeysDiffer(bolds: seq<seq<string>>, i: nat)
    requires i < |Sources|
    ensures |FixedWrites(bolds)| == |Sources|
    ensures forall j :: i < j < |FixedWrites(bolds)| ==> FixedWrites(bolds)[j].0 != FixedWrites(bolds)[i].0
  {
    WritesFromAt(bolds, 0, i);
    forall j | i < j < |FixedWrites(bolds)|
      ensures FixedWrites(bolds)[j].0 != FixedWrites(bolds)[i].0
    {
      WritesFromAt(bolds, 0, j);
      KeysDistinct(i, j);
    }
  }

  /** On a readable page each of the seven keys holds the value read for it. */
  lemma FixedStored(data: map<string, string>, bolds: seq<seq<string>>, i: nat)
    requires Readable(bolds) && i < |Sources|
    ensures Present(bolds, Sources[i])
    ensures FixedKeys[i] in Store(data, FixedWrites(bolds)).0
    ensures Store(data, FixedWrites(bolds)).0[FixedKeys[i]] == Value(bolds, Sources[i])
  {
    ReadableAllPresent(bolds, i);
    WritesFromAt(bolds, 0, i);
    ReadableAllRead(bolds, 0);
    LaterKeysDiffer(bolds, i);
    StoreLastWins(data, FixedWrites(bolds), i);
  }

  /** The fixed-offset reads touch no key but the seven. */
  lemma FixedFrame(data: map<string, string>, bolds: seq<seq<string>>, k: string)
    requires k !in FixedKeys
    ensures k in Store(data, FixedWrites(bolds)).0 <==> k in data
    ensures k in data ==> Store(data, FixedWrites(bolds)).0[k] == data[k]
  {
    FixedWritesAt(bolds);
    StoreFrame(data, FixedWrites(bolds), k);
  }

  /** Every key the fixed-offset reads add is one of the seven. */
  lemma FixedKeysOnly(data: map<string, string>, bolds: seq<seq<string>>, k: string)
    requires k in Store(data, FixedWrites(bolds)).0 && k !in data
    ensures k in FixedKeys
  {
    StoreKeys(data, FixedWrites(bolds), k);
    FixedWritesAt(bolds);
    var i :| 0 <= i < |Sources| && FixedWrites(bolds)[i].0 == k;
    assert FixedKeys[i] == k;
  }

  /** The two reads from `tr` 3 succeed and are stored first. */
  lemma TrThreeStored(data: map<string, string>, bolds: seq<seq<string>>)
    requires |bolds| > 3 && |bolds[3]| >= 2
    ensures Store(data, FixedWrites(bolds))
            == Store(data[RealEstateId := CleanString(bolds[3][0], true)][Pin := CleanString(bolds[3][1], true)],
                     WritesFrom(bolds, 2))
  {
    var d1 := data[RealEstateId := CleanString(bolds[3][0], true)];
    FixedStepOne(data, bolds, 0, RealEstateId, 3, 0);
    FixedStepOne(d1, bolds, 1, Pin, 3, 1);
  }

  /** After `tr` 3, the two reads from `tr` 7 succeed and are stored. */
  lemma TrSevenStored(data: map<string, string>, bolds: seq<seq<string>>)
    requires |bolds| > 7 && |bolds[7]| >= 2
    ensures Store(data, WritesFrom(bolds, 2))
            == Store(data[LocationAddress := CleanString(bolds[7][0], true)][PropertyDescription := CleanString(bolds[7][1], true)],
                     WritesFrom(bolds, 4))
  {
    var d1 := data[LocationAddress := CleanString(bolds[7][0], true)];
    FixedStepOne(data, bolds, 2, LocationAddress, 7, 0);
    FixedStepOne(d1, bolds, 3, PropertyDescription, 7, 1);
  }

  /** A `tr` 11 without `<b>` raises after the first four fields are stored, and before the owner is. */
  lemma OwnerMissingKeepsFour(data: map<string, string>, bolds: seq<seq<string>>)
    requires |bolds| > 11 && |bolds[3]| >= 2 && |bolds[7]| >= 2 && bolds[11] == []
    ensures !Store(data, FixedWrites(bolds)).1
    ensures Store(data, FixedWrites(bolds)).0
            == data[RealEstateId := CleanString(bolds[3][0], true)][Pin := CleanString(bolds[3][1], true)]
                   [LocationAddress := CleanString(bolds[7][0], true)][PropertyDescription := CleanString(bolds[7][1], true)]
  {
    var d2 := data[RealEstateId := CleanString(bolds[3][0], true)][Pin := CleanString(bolds[3][1], true)];
    var d4 := d2[LocationAddress := CleanString(bolds[7][0], true)][PropertyDescription := CleanString(bolds[7][1], true)];
    TrThreeStored(data, bolds);
    TrSevenStored(d2, bolds);
    FixedStop(d4, bolds, 4);
  }

  /** Stripping text that is all whitespace leaves nothing. */
  lemma StripAllSpace(s: string)
    requires AllSpace(s)
    ensures Strip(s) == []
  {
    StripTrims(s);
  }

  /** A blank owner cell is stored as the empty string: these writes have no emptiness test. */
  lemma BlankOwnerStored(data: map<string, string>, bolds: seq<seq<string>>)
    requires Readable(bolds) && AllSpace(bolds[11][0])
    ensures PropertyOwner in Store(data, FixedWrites(bolds)).0
    ensures Store(data, FixedWrites(bolds)).0[PropertyOwner] == ""
  {
    FixedStored(data, bolds, 4);
    StripAllSpace(bolds[11][0]);
  }

  /** Joining two blank texts after stripping them leaves only the joining space. */
  lemma JoinBlanks(a: string, b: string)
    requires AllSpace(a) && AllSpace(b)
    ensures CleanString(Strip(a) + " " + Strip(b), false) == " "
  {
    StripAllSpace(a);
    StripAllSpace(b);
    assert Strip(a) + " " + Strip(b) == [' '];
    CollapseOfRun([' ']);
  }

  /**
   * Two blank mailing-address cells are stored as a single space: the joining
   * space survives because the join is cleaned without stripping.
   */
  lemma BlankMailingIsSpace(data: map<string, string>, bolds: seq<seq<string>>)
    requires Readable(bolds) && AllSpace(bolds[9][2]) && AllSpace(bolds[9][3])
    ensures MailingAddress in Store(data, FixedWrites(bolds)).0
    ensures Store(data, FixedWrites(bolds)).0[MailingAddress] == " "
  {
    FixedStored(data, bolds, 5);
    JoinBlanks(bolds[9][2], bolds[9][3]);
  }
}
