/**
 * A run of dictionary writes `data[key] = value`, each preceded by the read
 * that produces its value. A read that raises ends the run, and the writes
 * made before it stay in the dictionary.
 */
module Stores {
  import opened Wrappers

  /** A key, and the value read for it, or None where reading it raises. */
  type Write = (string, Option<string>)

  /** Makes `writes` in order until the first one whose read raises; reports whether all were made. */
  function Store(data: map<string, string>, writes: seq<Write>): (map<string, string>, bool)
    decreases |writes|
  {
    if writes == [] then (data, true)
    else if writes[0].1.None? then (data, false)
    else Store(data[writes[0].0 := writes[0].1.value], writes[1..])
  }

  /** One write made: the record after it, then the remaining writes. */
  lemma StoreStep(data: map<string, string>, writes: seq<Write>)
    requires writes != [] && writes[0].1.Some?
    ensures Store(data, writes) == Store(data[writes[0].0 := writes[0].1.value], writes[1..])
  {
  }

  /** Every write is made exactly when no read raises. */
  lemma {:induction false} StoreCompletes(data: map<string, string>, writes: seq<Write>)
    ensures Store(data, writes).1 <==> forall i :: 0 <= i < |writes| ==> writes[i].1.Some?
    decreases |writes|
  {
    if writes != [] && writes[0].1.Some? {
      var rest := writes[1..];
      StoreCompletes(data[writes[0].0 := writes[0].1.value], rest);
      assert forall i :: 1 <= i < |writes| ==> writes[i] == rest[i - 1];
    }
  }

  /** A read that raises stops the run: only the writes before it are made. */
  lemma {:induction false} StoreStopsAt(data: map<string, string>, writes: seq<Write>, m: nat)
    requires m < |writes| && writes[m].1.None?
    requires forall i :: 0 <= i < m ==> writes[i].1.Some?
    ensures !Store(data, writes).1
    ensures Store(data, writes).0 == Store(data, writes[..m]).0
    decreases |writes|
  {
    if m == 0 {
      assert writes[..m] == [];
    } else {
      var next := data[writes[0].0 := writes[0].1.value];
      var rest := writes[1..];
      assert forall i :: 0 <= i < m - 1 ==> rest[i] == writes[i + 1];
      StoreStopsAt(next, rest, m - 1);
      StoreStep(data, writes);
      assert writes[..m][0] == writes[0] && writes[..m][1..] == rest[..m - 1];
      StoreStep(data, writes[..m]);
    }
  }

  /** A key that no write names keeps its presence and its value. */
  lemma {:induction false} StoreFrame(data: map<string, string>, writes: seq<Write>, k: string)
    requires forall i :: 0 <= i < |writes| ==> writes[i].0 != k
    ensures k in Store(data, writes).0 <==> k in data
    ensures k in data ==> Store(data, writes).0[k] == data[k]
    decreases |writes|
  {
    if writes != [] && writes[0].1.Some? {
      StoreFrame(data[writes[0].0 := writes[0].1.value], writes[1..], k);
    }
  }

  /** When no read raises, a key holds the value of the last write naming it. */
  lemma {:induction false} StoreLastWins(data: map<string, string>, writes: seq<Write>, i: nat)
    requires forall j :: 0 <= j < |writes| ==> writes[j].1.Some?
    requires i < |writes|
    requires forall j :: i < j < |writes| ==> writes[j].0 != writes[i].0
    ensures writes[i].0 in Store(data, writes).0
    ensures Store(data, writes).0[writes[i].0] == writes[i].1.value
    decreases |writes|
  {
    var next := data[writes[0].0 := writes[0].1.value];
    var rest := writes[1..];
    if i == 0 {
      StoreFrame(next, rest, writes[0].0);
    } else {
      StoreLastWins(next, rest, i - 1);
    }
  }

  /** Every key afterwards was there before or is named by some write. */
  lemma {:induction false} StoreKeys(data: map<string, string>, writes: seq<Write>, k: string)
    requires k in Store(data, writes).0 && k !in data
    ensures exists i :: 0 <= i < |writes| && writes[i].0 == k
    decreases |writes|
  {
    if writes != [] && writes[0].1.Some? && writes[0].0 != k {
      StoreKeys(data[writes[0].0 := writes[0].1.value], writes[1..], k);
      var i :| 0 <= i < |writes[1..]| && writes[1..][i].0 == k;
      assert writes[i + 1].0 == k;
    }
  }
}
