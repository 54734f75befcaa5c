/**
 * The intent cache of app/cache_utils.py: an append-only log of entries,
 * looked up by key in log order, first match wins.  The log is the persisted
 * JSONL file; reading it never changes it, and the hit counter and last-used
 * time of the entry handed back are bumped on that copy only.
 */
module IntentCache {
  import opened Base
  import opened Canonical

  datatype Entry = Entry(
    key: string,
    canonical: string,
    analysis: string,
    intent: string,
    hits: int,
    lastUsed: int)

  /** Index of the first entry of `log` whose key is `k`, if any. */
  function FirstMatch(log: seq<Entry>, k: string): (r: Option<nat>)
    ensures r.Some? ==> r.value < |log| && log[r.value].key == k
    ensures r.Some? ==> forall j | 0 <= j < r.value :: log[j].key != k
    ensures r.None? <==> forall j | 0 <= j < |log| :: log[j].key != k
  {
    if log == [] then None
    else if log[0].key == k then Some(0)
    else match FirstMatch(log[1..], k)
      case None => None
      case Some(i) => Some(i + 1)
  }

  /** Appending never changes the answer for a key that already had one, and
      a key that had none is answered by the appended entry if it carries it. */
  lemma {:induction false} FirstMatchAppend(log: seq<Entry>, e: Entry, k: string)
    ensures FirstMatch(log + [e], k) ==
      if FirstMatch(log, k).Some? then FirstMatch(log, k)
      else if e.key == k then Some(|log|)
      else None
  {
    var m := FirstMatch(log, k);
    var m' := FirstMatch(log + [e], k);
    if m.Some? {
      assert (log + [e])[m.value] == log[m.value];
      assert m' == m;
    } else {
      assert forall j | 0 <= j < |log| :: (log + [e])[j] == log[j];
      assert (log + [e])[|log|] == e;
    }
  }

  /** Two entries with the same key appended in order A then B: lookup
      answers with A. */
  lemma FirstOfTwoWins(log: seq<Entry>, a: Entry, b: Entry)
    requires FirstMatch(log, a.key).None? && a.key == b.key
    ensures FirstMatch(log + [a] + [b], a.key) == Some(|log|)
  {
    FirstMatchAppend(log, a, a.key);
    FirstMatchAppend(log + [a], b, a.key);
  }

  class Cache {
    /** The digest function of `_key`. */
    const hash: string -> string
    /** The persisted log, in file order. */
    var log: seq<Entry>

    constructor (hash: string -> string, log: seq<Entry>)
      ensures this.hash == hash && this.log == log
    {
      this.hash := hash;
      this.log := log;
    }

    /** `load_from_cache`: the first entry whose key is the text's key, with
        its hit counter bumped and its last-used time set on the copy. */
    method Lookup(text: string, now: int) returns (r: Option<Entry>)
      ensures FirstMatch(log, Key(hash, text)).None? ==> r.None?
      ensures FirstMatch(log, Key(hash, text)).Some? ==>
        var e := log[FirstMatch(log, Key(hash, text)).value];
        r == Some(e.(hits := e.hits + 1, lastUsed := now))
    {
      var k := Key(hash, text);
      var i := 0;
      while i < |log|
        invariant 0 <= i <= |log|
        invariant forall j | 0 <= j < i :: log[j].key != k
      {
        if log[i].key == k {
          var doc := log[i];
          return Some(doc.(hits := doc.hits + 1, lastUsed := now));
        }
        i := i + 1;
      }
      return None;
    }

    /** `save_to_cache`: append one entry keyed by the RAW text's key. */
    method Save(rawText: string, canonical: string, analysis: string, intent: string, now: int)
      modifies this
      ensures log == old(log) + [Entry(Key(hash, rawText), canonical, analysis, intent, 1, now)]
    {
      log := log + [Entry(Key(hash, rawText), canonical, analysis, intent, 1, now)];
    }
  }
}
