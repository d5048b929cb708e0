/**
 * Log redaction of the reply service: `redact_api_key` replaces the configured
 * API key in a log string, and `sanitize_log_message` applies it through nested
 * dictionaries and lists, blanking any `Authorization` header wholesale.
 */
module Redaction {
  import opened Strings

  /** What every occurrence of the key becomes. */
  const Marker := "SK-***REDACTED***"

  /** What the value of an `Authorization` entry becomes. */
  const BearerMarker := "Bearer SK-***REDACTED***"

  /** `DEEPSEEK_API_KEY` is truthy: set and non-empty. */
  predicate Configured(key: Option<string>)
  {
    key.Some? && key.value != []
  }

  /** `redact_api_key(text)` with `DEEPSEEK_API_KEY` passed in as `key`. */
  function RedactApiKey(key: Option<string>, text: string): (r: string)
    ensures !Configured(key) || text == [] ==> r == text
    ensures Configured(key) && key.value != Marker ==> (r == text <==> !Contains(text, key.value))
  {
    if !Configured(key) || text == [] then text
    else
      var r := Replace(text, key.value, Marker);
      assert key.value != Marker ==> (r == text <==> !Contains(text, key.value)) by {
        if key.value != Marker { ReplaceUnchangedIff(text, key.value, Marker); }
      }
      r
  }

  /**
   * Redaction works from the left: the text before the first occurrence of the key
   * is kept, that occurrence becomes the marker, and the rest is redacted in turn.
   */
  lemma RedactFirstOccurrence(key: Option<string>, text: string, i: nat)
    requires Configured(key)
    requires OccursAt(text, key.value, i)
    requires forall j :: 0 <= j < i ==> !OccursAt(text, key.value, j)
    ensures RedactApiKey(key, text)
         == text[..i] + Marker + RedactApiKey(key, text[i + |key.value|..])
  {
    ReplaceAtFirst(text, key.value, Marker, i);
  }

  /** A value handed to the logger: the JSON-like shapes the service logs. */
  datatype LogValue =
    | Str(s: string)
    | Dict(entries: seq<Entry>)
    | List(items: seq<LogValue>)
    | Other(repr: string)  // numbers, booleans, None: anything that is not str, dict or list

  /** One key of a dictionary, in insertion order; keys are strings. */
  datatype Entry = Entry(key: string, value: LogValue)

  /** `k.lower() == "authorization"`. */
  predicate IsAuthorization(k: string)
  {
    Lower(k) == "authorization"
  }

  function Keys(es: seq<Entry>): seq<string>
  {
    seq(|es|, i requires 0 <= i < |es| => es[i].key)
  }

  /** `sanitize_log_message(obj)` with `DEEPSEEK_API_KEY` passed in as `key`. */
  function Sanitize(key: Option<string>, v: LogValue): (r: LogValue)
    ensures v.Str? ==> r == Str(RedactApiKey(key, v.s))
    ensures v.Other? ==> r == v
    ensures v.List? ==> r.List? && |r.items| == |v.items|
    ensures v.List? ==> forall i :: 0 <= i < |v.items| ==> r.items[i] == Sanitize(key, v.items[i])
    ensures v.Dict? ==> r.Dict? && Keys(r.entries) == Keys(v.entries)
    ensures v.Dict? ==> forall i :: 0 <= i < |v.entries| && IsAuthorization(v.entries[i].key) ==>
      r.entries[i].value == Str(BearerMarker)
    ensures v.Dict? ==> forall i :: 0 <= i < |v.entries| && !IsAuthorization(v.entries[i].key) ==>
      r.entries[i].value == Sanitize(key, v.entries[i].value)
    decreases v
  {
    match v
    case Str(s) => Str(RedactApiKey(key, s))
    case Dict(es) =>
      var es' := seq(|es|, i requires 0 <= i < |es| =>
        if IsAuthorization(es[i].key) then Entry(es[i].key, Str(BearerMarker))
        else Entry(es[i].key, Sanitize(key, es[i].value)));
      assert Keys(es') == Keys(es);
      Dict(es')
    case List(xs) => List(seq(|xs|, i requires 0 <= i < |xs| => Sanitize(key, xs[i])))
    case Other(_) => v
  }

  /** No string anywhere in v contains the key. */
  ghost predicate KeyFree(key: Option<string>, v: LogValue)
    decreases v
  {
    match v
    case Str(s) => !Configured(key) || !Contains(s, key.value)
    case Dict(es) => forall i :: 0 <= i < |es| ==> KeyFree(key, es[i].value)
    case List(xs) => forall i :: 0 <= i < |xs| ==> KeyFree(key, xs[i])
    case Other(_) => true
  }

  /** Every `Authorization` entry, at any depth, holds the bearer marker. */
  ghost predicate HeadersBlanked(v: LogValue)
    decreases v
  {
    match v
    case Str(_) => true
    case Dict(es) => forall i :: 0 <= i < |es| ==>
      (if IsAuthorization(es[i].key) then es[i].value == Str(BearerMarker) else HeadersBlanked(es[i].value))
    case List(xs) => forall i :: 0 <= i < |xs| ==> HeadersBlanked(xs[i])
    case Other(_) => true
  }

  /** After sanitizing, no `Authorization` header survives at any depth. */
  lemma {:induction false} SanitizeBlanksHeaders(key: Option<string>, v: LogValue)
    ensures HeadersBlanked(Sanitize(key, v))
    decreases v
  {
    match v
    case Str(_) =>
    case Other(_) =>
    case List(xs) =>
      forall i | 0 <= i < |xs| ensures HeadersBlanked(Sanitize(key, xs[i])) {
        SanitizeBlanksHeaders(key, xs[i]);
      }
    case Dict(es) =>
      forall i | 0 <= i < |es| && !IsAuthorization(es[i].key)
        ensures HeadersBlanked(Sanitize(key, es[i].value))
      {
        SanitizeBlanksHeaders(key, es[i].value);
      }
  }

  /**
   * A value that holds no key and whose headers are already blanked is left as it
   * is: sanitizing changes exactly the secrets and nothing else.
   */
  lemma {:induction false} SanitizeFixesClean(key: Option<string>, v: LogValue)
    requires Configured(key) ==> key.value != Marker
    requires KeyFree(key, v) && HeadersBlanked(v)
    ensures Sanitize(key, v) == v
    decreases v
  {
    match v
    case Str(s) =>
    case Other(_) =>
    case List(xs) =>
      forall i | 0 <= i < |xs| ensures Sanitize(key, xs[i]) == xs[i] {
        SanitizeFixesClean(key, xs[i]);
      }
      assert Sanitize(key, v).items == xs;
    case Dict(es) =>
      forall i | 0 <= i < |es| && !IsAuthorization(es[i].key)
        ensures Sanitize(key, es[i].value) == es[i].value
      {
        SanitizeFixesClean(key, es[i].value);
      }
      assert Sanitize(key, v).entries == es;
  }
}
