/**
 * Intent classification and search-field extraction of app/nlp.py.  The
 * language model is not part of the model: each of its replies is a value
 * handed in by the caller, with a variant for a call or a JSON decoding that
 * raises.
 */
module Nlp {
  import opened Base
  import opened Text
  import opened Values
  import opened Canonical
  import opened IntentCache
  import opened IntentRules

  /** What the classifier call of `classify_query_type` yields: the JSON
      object's "canonical" and "intent" members and its optional "analysis",
      or an exception (failed call, invalid JSON, a missing member). */
  datatype ClassifierReply =
    | ClassifierFailed
    | Classified(canonical: string, intent: string, analysis: Option<string>)

  const RegexAnalysis := "matched_by_regex"

  /** The label `classify_query_type` answers with, given the cache log it
      starts from: the first cached entry's intent, else the rule-based
      label, else the classifier's label; None when the classifier fails. */
  function ClassifyOutcome(log: seq<Entry>, hash: string -> string, text: string, reply: ClassifierReply): Option<string> {
    match FirstMatch(log, Key(hash, text))
    case Some(i) => Some(log[i].intent)
    case None =>
      if RegexIntent(text).Some? then RegexIntent(text)
      else if reply.Classified? then Some(reply.intent)
      else None
  }

  /** A label from the rules is never replaced by the classifier's, and the
      classifier is consulted only when neither the cache nor the rules answer. */
  lemma ClassifyOutcomePriority(log: seq<Entry>, hash: string -> string, text: string, reply: ClassifierReply)
    ensures FirstMatch(log, Key(hash, text)).None? && RegexIntent(text).Some? ==>
      ClassifyOutcome(log, hash, text, reply) == RegexIntent(text)
    ensures ClassifyOutcome(log, hash, text, reply).None? <==>
      FirstMatch(log, Key(hash, text)).None? && RegexIntent(text).None? && reply.ClassifierFailed?
    ensures forall other: ClassifierReply ::
      FirstMatch(log, Key(hash, text)).Some? || RegexIntent(text).Some? ==>
        ClassifyOutcome(log, hash, text, other) == ClassifyOutcome(log, hash, text, reply)
  {
  }

  /** The cache log `classify_query_type` leaves behind: unchanged on a cache
      hit or a failed classifier call, else with one entry for the text's key
      recording where the label came from. */
  function ClassifyLog(log: seq<Entry>, hash: string -> string, text: string, reply: ClassifierReply, now: int)
    : (r: seq<Entry>)
    ensures log <= r && |r| <= |log| + 1
    ensures r == log <==> FirstMatch(log, Key(hash, text)).Some? || (RegexIntent(text).None? && reply.ClassifierFailed?)
    ensures r != log ==> r[|log|].key == Key(hash, text) && r[|log|].hits == 1 && r[|log|].lastUsed == now
    ensures r != log ==> ClassifyOutcome(log, hash, text, reply) == Some(r[|log|].intent)
    ensures r != log ==>
      if RegexIntent(text).Some? then r[|log|].canonical == text && r[|log|].analysis == RegexAnalysis
      else r[|log|].canonical == reply.canonical && r[|log|].analysis == reply.analysis.GetOr("")
  {
    if FirstMatch(log, Key(hash, text)).Some? then log
    else if RegexIntent(text).Some? then
      log + [Entry(Key(hash, text), text, RegexAnalysis, RegexIntent(text).value, 1, now)]
    else if reply.Classified? then
      log + [Entry(Key(hash, text), reply.canonical, reply.analysis.GetOr(""), reply.intent, 1, now)]
    else log
  }

  /** `classify_query_type`: the cached intent if the cache knows the text;
      else the rule-based label, recorded in the cache; else the classifier's
      label, unchecked, recorded in the cache.  None stands for the exception
      a failed classifier call raises. */
  method ClassifyQueryType(cache: Cache, text: string, reply: ClassifierReply, now: int)
    returns (r: Option<string>)
    modifies cache
    ensures r == ClassifyOutcome(old(cache.log), cache.hash, text, reply)
    ensures cache.log == ClassifyLog(old(cache.log), cache.hash, text, reply, now)
    ensures r.Some? ==>
      var m := FirstMatch(cache.log, Key(cache.hash, text));
      m.Some? && cache.log[m.value].intent == r.value
  {
    var cached := cache.Lookup(text, now);
    if cached.Some? {
      return Some(cached.value.intent);
    }
    var intent := RegexIntent(text);
    if intent.Some? {
      FirstMatchAppend(cache.log, Entry(Key(cache.hash, text), text, RegexAnalysis, intent.value, 1, now), Key(cache.hash, text));
      cache.Save(text, text, RegexAnalysis, intent.value, now);
      return intent;
    }
    match reply
    case ClassifierFailed =>
      return None;
    case Classified(canonical, said, analysis) =>
      FirstMatchAppend(cache.log, Entry(Key(cache.hash, text), canonical, analysis.GetOr(""), said, 1, now), Key(cache.hash, text));
      cache.Save(text, canonical, analysis.GetOr(""), said, now);
      return Some(said);
  }

  /** Classification is memoised: once a text has been classified, a second
      classification of any text with the same canonical form is answered
      from the cache, whatever the classifier would say, and appends nothing. */
  method ClassifyTwice(cache: Cache, text: string, again: string, reply1: ClassifierReply,
                       reply2: ClassifierReply, now1: int, now2: int)
    returns (r1: Option<string>, r2: Option<string>)
    requires Canonicalize(again) == Canonicalize(text)
    modifies cache
    ensures r1.Some? ==> r2 == r1
    ensures cache.log == ClassifyLog(ClassifyLog(old(cache.log), cache.hash, text, reply1, now1), cache.hash, again, reply2, now2)
    ensures r1.Some? ==> cache.log == ClassifyLog(old(cache.log), cache.hash, text, reply1, now1)
  {
    r1 := ClassifyQueryType(cache, text, reply1, now1);
    ghost var mid := cache.log;
    KeyThroughCanonical(cache.hash, again, text);
    r2 := ClassifyQueryType(cache, again, reply2, now2);
    assert r1.Some? ==> cache.log == mid;
  }

  /** What the field-extraction call of `parse_nl_query` yields: the decoded
      JSON value, or an exception. */
  datatype ExtractionReply = ExtractionFailed | Extracted(value: Value)

  /** The dict `parse_nl_query` returns. */
  datatype ParsedQuery = ParsedQuery(parsed: Fields, missing: seq<string>, followup: string, original: string)

  const Apology := "Sorry, I couldn’t understand. Could you tell me which city and cuisine you're looking for?"

  /** The result of the `except` branch. */
  function ParseFailure(text: string): (r: ParsedQuery)
    ensures r.parsed == [] && r.missing == ["location", "categories"] && r.original == text
    ensures r.followup == Apology
  {
    ParsedQuery([], ["location", "categories"], Apology, text)
  }

  /** The required search fields that are absent or falsy, "location" first. */
  function MissingFields(f: Fields): (r: seq<string>)
    ensures |r| <= 2
  {
    (if Truthy(Get(f, "location")) then [] else ["location"])
    + (if Truthy(Get(f, "categories")) then [] else ["categories"])
  }

  /** Each required field is reported exactly when it is falsy, in the order
      location, categories, and nothing else is reported. */
  lemma MissingFieldsSpec(f: Fields)
    ensures "location" in MissingFields(f) <==> !Truthy(Get(f, "location"))
    ensures "categories" in MissingFields(f) <==> !Truthy(Get(f, "categories"))
    ensures forall x <- MissingFields(f) :: x == "location" || x == "categories"
    ensures |MissingFields(f)| == 2 ==> MissingFields(f) == ["location", "categories"]
  {
    assert "location" != "categories";
  }

  /** What `parse_nl_query` returns.  On the success path `missing` lists
      the falsy required fields and the follow-up is asked only when one is
      missing; any exception (extraction call, a reply that is not a JSON
      object, the follow-up call) gives the fixed failure result. */
  function ParseOutcome(text: string, extraction: ExtractionReply, followupReply: Option<string>): (r: ParsedQuery)
    ensures r.original == text
    ensures r.missing == MissingFields(r.parsed)
    ensures r.missing == [] ==> r.followup == ""
    ensures extraction.ExtractionFailed? || !extraction.value.Dict? ==> r == ParseFailure(text)
    ensures extraction.Extracted? && extraction.value.Dict? ==>
      if MissingFields(extraction.value.fields) != [] && followupReply.None? then r == ParseFailure(text)
      else r.parsed == extraction.value.fields && (r.missing != [] ==> r.followup == Strip(followupReply.value))
  {
    if extraction.ExtractionFailed? || !extraction.value.Dict? then ParseFailure(text)
    else
      var f := extraction.value.fields;
      if MissingFields(f) == [] then ParsedQuery(f, [], "", text)
      else if followupReply.None? then ParseFailure(text)
      else ParsedQuery(f, MissingFields(f), Strip(followupReply.value), text)
  }

  /** `parse_nl_query`, step by step. */
  method ParseNlQuery(text: string, extraction: ExtractionReply, followupReply: Option<string>)
    returns (r: ParsedQuery)
    ensures r == ParseOutcome(text, extraction, followupReply)
  {
    if extraction.ExtractionFailed? || !extraction.value.Dict? {
      return ParseFailure(text);
    }
    var parsed := extraction.value.fields;
    var missing: seq<string> := [];
    if !Truthy(Get(parsed, "location")) {
      missing := missing + ["location"];
    }
    if !Truthy(Get(parsed, "categories")) {
      missing := missing + ["categories"];
    }
    var followup := "";
    if missing != [] {
      if followupReply.None? {
        return ParseFailure(text);
      }
      followup := Strip(followupReply.value);
    }
    return ParsedQuery(parsed, missing, followup, text);
  }
}
