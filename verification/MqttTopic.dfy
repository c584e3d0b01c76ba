// Subtopics as the HTTP, WebSocket and CoAP adapters normalise them, and the MQTT adapter's two
// translations: a NATS message into an MQTT topic, and a published topic back into a NATS message.
module MqttTopic {
  import opened Common
  import opened Strings

  /** What the translations use of a message. */
  datatype Nats = Nats(channel: string, subtopic: string, contentType: string, protocol: string)

  /** UnknownTopic and InvalidSubtopic: the publish callback gets an error. */
  datatype Outcome =
    | UnknownTopic
    | InvalidSubtopic
    | Accepted(channel: string, topic: string, subtopic: string, contentType: string, subject: string)

  // ----- NATS to MQTT --------------------------------------------------------------------------------

  /** replace('/', '_').replace('+', '-'): the first of each only. */
  function EncodeType(ct: string): (r: string) {
    ReplaceFirst(ReplaceFirst(ct, '/', '_'), '+', '-')
  }

  /** replace('_', '/').replace('-', '+') */
  function DecodeType(ct: string): (r: string) {
    ReplaceFirst(ReplaceFirst(ct, '_', '/'), '-', '+')
  }

  function Tail(m: Nats): string {
    (if m.subtopic != "" then "/" + ReplaceAll(m.subtopic, '.', '/') else "") +
    (if m.contentType != "" then "/ct/" + EncodeType(m.contentType) else "")
  }

  /** The topic a NATS message is published to; messages from MQTT itself are not sent back. */
  function TopicOf(m: Nats): Option<string> {
    if m.protocol == "mqtt" then None else Some("channels/" + m.channel + "/messages" + Tail(m))
  }

  // ----- Matching the topic --------------------------------------------------------------------------

  /** The characters that a dot in a JavaScript regular expression does not match. */
  predicate Terminator(c: char) {
    c == '\n' || c == '\r' || c == '\U{2028}' || c == '\U{2029}'
  }

  predicate LineFree(s: string) {
    forall c :: c in s ==> !Terminator(c)
  }

  /** w stands in s at position i. */
  predicate At(s: string, w: string, i: nat) {
    i + |w| <= |s| && s[i..i + |w|] == w
  }

  /** The first position from i on where w stands, or |s|. */
  function FindFrom(s: string, w: string, i: nat): (k: nat)
    requires w != "" && i <= |s|
    ensures i <= k <= |s| && (k < |s| ==> At(s, w, k)) && forall j :: i <= j < k ==> !At(s, w, j)
    decreases |s| - i
  {
    if i == |s| || At(s, w, i) then i else FindFrom(s, w, i + 1)
  }

  /** The group of /^channels\/(.+?)\/WORD\/?.*$/ */
  function Match(topic: string, word: string): Option<string> {
    if |topic| < 10 || topic[..9] != "channels/" || !LineFree(topic[9..]) then None
    else
      var i := FindFrom(topic, "/" + word, 10);
      if i == |topic| then None else Some(topic[9..i])
  }

  /** parseTopic: the channel. */
  function ParseTopic(topic: string): Option<string> {
    if Match(topic, "control").Some? then Match(topic, "control") else Match(topic, "messages")
  }

  // ----- MQTT to NATS --------------------------------------------------------------------------------

  /** An element that both sides refuse: a wildcard beside another character. */
  predicate Wild(e: string) {
    |e| > 1 && ('*' in e || '>' in e)
  }

  predicate AnyWild(elements: seq<string>) {
    exists e :: e in elements && Wild(e)
  }

  /** parts.join('.').split('.').filter(isEmpty), whose filter keeps the elements that are not empty. */
  function Elements(parts: seq<string>): seq<string> {
    NonEmpty(Split(Join(parts, '.'), '.'))
  }

  predicate HasType(elements: seq<string>) {
    |elements| > 1 && elements[|elements| - 2] == "ct"
  }

  function TypeOf(elements: seq<string>): string {
    if HasType(elements) then DecodeType(elements[|elements| - 1]) else ""
  }

  function SubtopicElements(elements: seq<string>): seq<string> {
    if HasType(elements) then elements[..|elements| - 2] else elements
  }

  function Subject(channel: string, st: seq<string>): string {
    if st != [] then "channel." + channel + "." + Join(st, '.') else "channel." + channel
  }

  /** What the adapter makes of a published topic, before it asks the things service. */
  function Translated(topic: string): Outcome {
    var channel, parts := ParseTopic(topic), Split(topic, '/');
    if channel.None? then UnknownTopic
    else
      var elements := Elements(if |parts| >= 3 then parts[3..] else []);
      if AnyWild(elements) then InvalidSubtopic
      else
        var st := SubtopicElements(elements);
        Accepted(channel.value, if |parts| >= 3 then parts[2] else "", Join(st, '.'), TypeOf(elements),
                 Subject(channel.value, st))
  }

  lemma WildIn(elements: seq<string>, i: nat)
    requires i < |elements| && Wild(elements[i])
    ensures AnyWild(elements)
  {
  }

  lemma NoneWild(elements: seq<string>)
    requires forall i :: 0 <= i < |elements| ==> !Wild(elements[i])
    ensures !AnyWild(elements)
  {
  }

  method AuthorizePublish(topic: string) returns (r: Outcome)
    ensures r == Translated(topic)
  {
    var channel := ParseTopic(topic);
    if channel.None? {
      return UnknownTopic;
    }
    var parts := Split(topic, '/');
    var elements := Elements(if |parts| >= 3 then parts[3..] else []);
    var i := 0;
    while i < |elements|
      invariant 0 <= i <= |elements|
      invariant forall j :: 0 <= j < i ==> !Wild(elements[j])
    {
      if |elements[i]| > 1 && ('*' in elements[i] || '>' in elements[i]) {
        WildIn(elements, i);
        return InvalidSubtopic;
      }
      i := i + 1;
    }
    NoneWild(elements);
    var contentType, st := "", elements;
    if |elements| > 1 && elements[|elements| - 2] == "ct" {
      contentType := ReplaceFirst(ReplaceFirst(elements[|elements| - 1], '_', '/'), '-', '+');
      st := elements[..|elements| - 2];
    }
    var baseTopic := "channel." + channel.value;
    var channelTopic := if |st| > 0 then baseTopic + "." + Join(st, '.') else baseTopic;
    r := Accepted(channel.value, if |parts| >= 3 then parts[2] else "", Join(st, '.'), contentType, channelTopic);
  }

  // ----- Normalised subtopics ------------------------------------------------------------------------

  ghost predicate Normal(els: seq<string>) {
    forall e :: e in els ==> e != "" && '.' !in e && '/' !in e && !Wild(e)
  }

  /** What parseSubtopic makes of an unescaped subtopic; None for a malformed one. */
  function Normalised(s: string): Option<string> {
    var elems := Split(ReplaceAll(s, '/', '.'), '.');
    if AnyWild(elems) then None else Some(Join(NonEmpty(elems), '.'))
  }

  lemma NonEmptyNext(elems: seq<string>, i: nat, filtered: seq<string>)
    requires i < |elems|
    ensures filtered + NonEmpty(elems[i..]) ==
            (if elems[i] == "" then filtered else filtered + [elems[i]]) + NonEmpty(elems[i + 1..])
  {
    var rest := elems[i..];
    assert rest[0] == elems[i] && rest[1..] == elems[i + 1..];
    assert [] + NonEmpty(rest[1..]) == NonEmpty(rest[1..]);
  }

  /** parseSubtopic, with what url.QueryUnescape returned for the subtopic as a parameter. */
  method ParseSubtopic(subtopic: string, unescaped: Option<string>) returns (r: Option<string>)
    ensures r == if subtopic == "" then Some("") else if unescaped.None? then None else Normalised(unescaped.value)
  {
    if subtopic == "" {
      return Some(subtopic);
    }
    if unescaped.None? {
      return None;
    }
    var elems := Split(ReplaceAll(unescaped.value, '/', '.'), '.');
    var filtered: seq<string>, i := [], 0;
    while i < |elems|
      invariant 0 <= i <= |elems|
      invariant filtered + NonEmpty(elems[i..]) == NonEmpty(elems)
      invariant forall j :: 0 <= j < i ==> !Wild(elems[j])
    {
      NonEmptyNext(elems, i, filtered);
      if elems[i] == "" {
        i := i + 1;
        continue;
      }
      if |elems[i]| > 1 && ('*' in elems[i] || '>' in elems[i]) {
        WildIn(elems, i);
        return None;
      }
      filtered := filtered + [elems[i]];
      i := i + 1;
    }
    NoneWild(elems);
    assert filtered + [] == filtered;
    r := Some(Join(filtered, '.'));
  }

  lemma {:induction false} ReplaceGone(s: string, a: char, b: char)
    requires a != b
    ensures a !in ReplaceAll(s, a, b)
    ensures forall c :: c in s && c != a ==> c in ReplaceAll(s, a, b)
    ensures a in s ==> b in ReplaceAll(s, a, b)
  {
    if s != "" {
      ReplaceGone(s[1..], a, b);
      assert s == [s[0]] + s[1..];
    }
  }

  /** An accepted subtopic is a list of normal elements, joined by dots. */
  lemma NormalisedIs(s: string) returns (els: seq<string>)
    ensures els == NonEmpty(Split(ReplaceAll(s, '/', '.'), '.'))
    ensures Normalised(s).Some? ==> Normal(els) && Normalised(s).value == Join(els, '.')
  {
    var t := ReplaceAll(s, '/', '.');
    els := NonEmpty(Split(t, '.'));
    ReplaceGone(s, '/', '.');
    SplitParts(t, '.');
    SplitChars(t, '.', '/');
    forall e | e in els ensures e in Split(t, '.') && e != "" {
      NonEmptyIn(Split(t, '.'), e);
    }
  }

  /** Normalising again changes nothing. */
  lemma NormaliseOnce(s: string)
    requires Normalised(s).Some?
    ensures Normalised(Normalised(s).value) == Normalised(s)
  {
    var els := NormalisedIs(s);
    if els == [] {
      assert Split("", '.') == [""];
    } else {
      var t := Join(els, '.');
      SplitJoin(els, '.');
      NonEmptyAll(els);
      if '/' in t {
        JoinChars(els, '.', '/');
      }
      ReplaceNone(t, '/', '.');
    }
  }

  lemma {:induction false} JoinChars(parts: seq<string>, c: char, x: char)
    requires x != c
    ensures x in Join(parts, c) <==> exists p :: p in parts && x in p
  {
    if parts != [] {
      assert parts == [parts[0]] + parts[1..];
      JoinChars(parts[1..], c, x);
      if |parts| == 1 {
        assert parts[1..] == [];
        assert forall p :: p in parts ==> p == parts[0];
        assert parts[0] in parts;
      } else {
        assert parts[0] in parts;
      }
    }
  }
}
