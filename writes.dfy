/** A record filled by plain assignments `record[key] = message`, key by key, in
    order: a later assignment to a key replaces an earlier one, and a throw
    abandons the whole record. Both levels of the validator fill their error
    records this way. */
module Writes {
  import opened JsValues

  /** What the rules for one key leave behind: the last message assigned, no
      assignment at all, or a throw. */
  datatype Write<E> = Write(key: string, outcome: Run<Option<E>>)

  function Put<E>(m: map<string, E>, k: string, w: Option<E>): map<string, E> {
    if w.Some? then m[k := w.value] else m
  }

  /** Performs the writes in order on `acc`, stopping at the first throw. */
  function Apply<E>(ws: seq<Write<E>>, acc: map<string, E>): Run<map<string, E>>
    decreases |ws|
  {
    if ws == [] then Ok(acc)
    else
      match ws[0].outcome
      case TypeError => TypeError
      case Ok(w) => Apply(ws[1..], Put(acc, ws[0].key, w))
  }

  /** One step of `Apply`, for writes listed one by one. */
  lemma ApplyCons<E>(w: Write<E>, ws: seq<Write<E>>, acc: map<string, E>)
    requires w.outcome.Ok?
    ensures Apply([w] + ws, acc) == Apply(ws, Put(acc, w.key, w.outcome.value))
  {
    assert ([w] + ws)[1..] == ws;
  }

  function Keys<E>(ws: seq<Write<E>>): set<string> {
    set i | 0 <= i < |ws| :: ws[i].key
  }

  predicate DistinctKeys<E>(ws: seq<Write<E>>) {
    forall i, j :: 0 <= i < j < |ws| ==> ws[i].key != ws[j].key
  }

  /** Only the keys of the writes are added. */
  lemma {:induction false} ApplyKeys<E>(ws: seq<Write<E>>, acc: map<string, E>)
    ensures Apply(ws, acc).Ok? ==> Apply(ws, acc).value.Keys <= acc.Keys + Keys(ws)
  {
    if ws != [] && ws[0].outcome.Ok? {
      ApplyKeys(ws[1..], Put(acc, ws[0].key, ws[0].outcome.value));
      assert Keys(ws[1..]) <= Keys(ws) by {
        forall k | k in Keys(ws[1..]) ensures k in Keys(ws) {
          var i :| 0 <= i < |ws[1..]| && ws[1..][i].key == k;
          assert ws[i + 1].key == k;
        }
      }
    }
  }

  /** A key no write names keeps whatever it had before. */
  lemma {:induction false} ApplyOutside<E>(ws: seq<Write<E>>, acc: map<string, E>, k: string)
    requires k !in Keys(ws)
    requires Apply(ws, acc).Ok?
    ensures k in Apply(ws, acc).value <==> k in acc
    ensures k in acc ==> Apply(ws, acc).value[k] == acc[k]
  {
    if ws != [] {
      assert ws[0].key != k by { assert ws[0].key in Keys(ws); }
      assert k !in Keys(ws[1..]);
      ApplyOutside(ws[1..], Put(acc, ws[0].key, ws[0].outcome.value), k);
    }
  }

  /** With distinct keys, the entry for the key of write `i` is what that write
      leaves, falling back on the starting record when it assigns nothing. */
  lemma {:induction false} ApplyEntry<E>(ws: seq<Write<E>>, acc: map<string, E>, i: nat)
    requires DistinctKeys(ws)
    requires i < |ws|
    requires Apply(ws, acc).Ok?
    ensures ws[i].outcome.Ok?
    ensures ws[i].key in Apply(ws, acc).value <==> ws[i].outcome.value.Some? || ws[i].key in acc
    ensures ws[i].key in Apply(ws, acc).value ==>
      Apply(ws, acc).value[ws[i].key] ==
        if ws[i].outcome.value.Some? then ws[i].outcome.value.value else acc[ws[i].key]
  {
    var acc' := Put(acc, ws[0].key, ws[0].outcome.value);
    if i == 0 {
      assert ws[0].key !in Keys(ws[1..]);
      ApplyOutside(ws[1..], acc', ws[0].key);
    } else {
      ApplyEntry(ws[1..], acc', i - 1);
      assert ws[1..][i - 1] == ws[i];
      assert ws[0].key != ws[i].key;
    }
  }

  /** The record is abandoned exactly when some write throws. */
  lemma {:induction false} ApplyThrows<E>(ws: seq<Write<E>>, acc: map<string, E>)
    ensures Apply(ws, acc) == TypeError <==> exists i :: 0 <= i < |ws| && ws[i].outcome == TypeError
  {
    if ws != [] && ws[0].outcome.Ok? {
      ApplyThrows(ws[1..], Put(acc, ws[0].key, ws[0].outcome.value));
      if exists i :: 0 <= i < |ws| && ws[i].outcome == TypeError {
        var i :| 0 <= i < |ws| && ws[i].outcome == TypeError;
        assert ws[1..][i - 1] == ws[i];
      }
    }
  }
}
