// What a publisher gets for a topic: the regular expressions of parseTopic as shortest matches, and the outcome for
// every list of elements, with the wildcard rule spelt out.
module MqttPublish {
  import opened Common
  import opened Strings
  import opened MqttTopic
  import opened MqttTopicLaws

  // ----- The regular expressions ---------------------------------------------------------------------

  /** The topic reads "channels/", the channel, "/", the word and any rest, all on one line. */
  ghost predicate ReadsAs(topic: string, word: string, ch: string) {
    ch != "" && LineFree(ch) && exists rest :: LineFree(rest) && topic == "channels/" + ch + "/" + word + rest
  }

  lemma ReadsAt(topic: string, pre: string, slashed: string, word: string, ch: string)
    requires |pre| == 9 && slashed == "/" + word && LineFree(slashed) && ch != ""
    ensures (LineFree(ch) && exists rest :: LineFree(rest) && topic == pre + ch + slashed + rest)
       <==> |topic| >= 9 && topic[..9] == pre && LineFree(topic[9..])
            && At(topic, slashed, 9 + |ch|) && topic[9..9 + |ch|] == ch
  {
    var k := 9 + |ch| + |slashed|;
    if LineFree(ch) && exists rest :: LineFree(rest) && topic == pre + ch + slashed + rest {
      var rest :| LineFree(rest) && topic == pre + ch + slashed + rest;
      Glued(pre, ch, slashed, rest);
      LineFreeConcat(ch, slashed);
      LineFreeConcat(ch + slashed, rest);
    }
    if |topic| >= 9 && topic[..9] == pre && LineFree(topic[9..]) && At(topic, slashed, 9 + |ch|)
       && topic[9..9 + |ch|] == ch {
      var rest := topic[k..];
      Unglued(topic, 9, 9 + |ch|, k);
      LineFreeConcat(ch, slashed);
      LineFreeConcat(ch + slashed, rest);
      assert topic == pre + ch + slashed + rest;
    }
  }

  lemma Glued(a: string, b: string, c: string, d: string)
    ensures var s := a + b + c + d;
            && s[..|a|] == a && s[|a|..] == (b + c) + d && s[|a|..|a| + |b|] == b
            && s[|a| + |b|..|a| + |b| + |c|] == c
  {
  }

  lemma Unglued(s: string, i: nat, j: nat, k: nat)
    requires i <= j <= k <= |s|
    ensures s == s[..i] + s[i..j] + s[j..k] + s[k..] && s[i..] == (s[i..j] + s[j..k]) + s[k..]
  {
  }

  /** The lazy group takes the shortest channel that fits. */
  lemma MatchExact(topic: string, word: string, ch: string)
    requires word != "" && LineFree("/" + word)
    ensures Match(topic, word) == Some(ch) <==>
            ReadsAs(topic, word, ch) && forall other :: ReadsAs(topic, word, other) ==> |ch| <= |other|
  {
    var slashed := "/" + word;
    if ch != "" {
      SlashedReads(topic, word, slashed, ch);
      forall other | ReadsAs(topic, word, other) ensures Fits(topic, slashed, other) {
        SlashedReads(topic, word, slashed, other);
      }
      if Fits(topic, slashed, ch) {
        MatchIs(topic, word, FindFrom(topic, slashed, 10));
        var f := FindFrom(topic, slashed, 10);
        var found := topic[9..f];
        SlashedReads(topic, word, slashed, found);
      }
      Shortest(topic, word, slashed, ch);
    } else {
      MatchNotEmpty(topic, word);
    }
  }

  lemma MatchNotEmpty(topic: string, word: string)
    requires word != ""
    ensures Match(topic, word) != Some("")
  {
    if |topic| >= 10 {
      assert |topic[9..FindFrom(topic, "/" + word, 10)]| >= 1;
    }
  }

  /** The channel stands in the topic with the word behind it. */
  predicate Fits(topic: string, slashed: string, ch: string) {
    && ch != "" && |topic| >= 10 && topic[..9] == "channels/" && LineFree(topic[9..])
    && At(topic, slashed, 9 + |ch|) && topic[9..9 + |ch|] == ch
  }

  lemma SlashedReads(topic: string, word: string, slashed: string, ch: string)
    requires slashed == "/" + word && LineFree(slashed)
    ensures ReadsAs(topic, word, ch) <==> Fits(topic, slashed, ch)
  {
    if ch != "" {
      ReadsAt(topic, "channels/", slashed, word, ch);
      forall rest ensures "channels/" + ch + "/" + word + rest == "channels/" + ch + slashed + rest {
        assert ("channels/" + ch) + "/" + word == ("channels/" + ch) + slashed;
      }
    }
  }

  lemma Shortest(topic: string, word: string, slashed: string, ch: string)
    requires word != "" && slashed == "/" + word && ch != ""
    ensures Match(topic, word) == Some(ch) ==> Fits(topic, slashed, ch)
    ensures Match(topic, word) == Some(ch) ==> forall other :: Fits(topic, slashed, other) ==> |ch| <= |other|
    ensures Fits(topic, slashed, ch) ==>
              var f := FindFrom(topic, slashed, 10);
              f <= 9 + |ch| && Match(topic, word) == Some(topic[9..f]) && Fits(topic, slashed, topic[9..f])
              && (f == 9 + |ch| ==> topic[9..f] == ch)
  {
    if |topic| >= 10 && topic[..9] == "channels/" {
      var f := FindFrom(topic, slashed, 10);
      MatchIs(topic, word, f);
      if Match(topic, word) == Some(ch) {
        assert |ch| == f - 9;
      }
    }
  }

  // ----- Publishing ----------------------------------------------------------------------------------

  /** Elements as a publisher gives them. */
  ghost predicate Proper(els: seq<string>) {
    forall e :: e in els ==> e != "" && '.' !in e && '/' !in e
  }

  function TopicFor(ch: string, els: seq<string>): string {
    "channels/" + ch + "/messages" + if els == [] then "" else "/" + Join(els, '/')
  }

  ghost predicate HasWildcard(els: seq<string>) {
    exists e :: e in els && |e| > 1 && ('*' in e || '>' in e)
  }

  function SubjectFor(ch: string, st: seq<string>): string {
    "channel." + ch + if st == [] then "" else "." + Join(st, '.')
  }

  lemma ProperElements(els: seq<string>)
    requires Proper(els)
    ensures Elements(els) == els
  {
    if els == [] {
      assert Split("", '.') == [""];
    } else {
      SplitJoin(els, '.');
      NonEmptyAll(els);
    }
  }

  lemma ProperTail(els: seq<string>)
    requires Proper(els)
    ensures Split(if els == [] then "" else "/" + Join(els, '/'), '/') == [""] + els
  {
    if els != [] {
      SplitJoin(els, '/');
      SplitAt("", Join(els, '/'), '/');
      assert "" + ['/'] + Join(els, '/') == "/" + Join(els, '/');
    }
  }

  lemma {:induction false} JoinLineFree(els: seq<string>)
    requires forall e :: e in els ==> LineFree(e)
    ensures LineFree(Join(els, '/'))
  {
    if |els| > 1 {
      JoinLineFree(els[1..]);
      LineFreeConcat(els[0] + ['/'], Join(els[1..], '/'));
      LineFreeConcat(els[0], ['/']);
      assert els[0] in els;
    } else if |els| == 1 {
      assert els[0] in els;
    }
  }

  lemma TailLineFree(els: seq<string>)
    requires forall e :: e in els ==> LineFree(e)
    ensures LineFree(if els == [] then "" else "/" + Join(els, '/'))
  {
    JoinLineFree(els);
    LineFreeConcat("/", Join(els, '/'));
  }

  /** A publisher's topic with these elements is refused if and only if one of them has a wildcard beside another
      character. Otherwise it goes to the channel's subject with the elements joined by dots, but for a last one
      that "ct" announces: that is the content type. */
  lemma PublishExact(ch: string, els: seq<string>)
    requires ch != "" && '/' !in ch && LineFree(ch)
    requires Proper(els) && forall e :: e in els ==> LineFree(e) && !Starts(CONTROL, e)
    ensures Translated(TopicFor(ch, els)) ==
            if HasWildcard(els) then InvalidSubtopic
            else if |els| > 1 && els[|els| - 2] == "ct" then
              var st := els[..|els| - 2];
              Accepted(ch, "messages", Join(st, '.'), DecodeType(els[|els| - 1]), SubjectFor(ch, st))
            else Accepted(ch, "messages", Join(els, '.'), "", SubjectFor(ch, els))
  {
    var tail := if els == [] then "" else "/" + Join(els, '/');
    ProperTail(els);
    TailLineFree(els);
    assert ([""] + els)[1..] == els;
    ChannelExact(ch, tail);
    Headed(ch, tail, els);
    ProperElements(els);
    Placed(els);
    assert HasWildcard(els) <==> AnyWild(els);
    Subjects(ch, els);
    if |els| > 1 {
      Subjects(ch, els[..|els| - 2]);
    }
  }

  lemma Placed(els: seq<string>)
    ensures var parts := ["channels", "x", "messages"] + els; parts[3..] == els
  {
  }

  lemma Subjects(ch: string, st: seq<string>)
    ensures Subject(ch, st) == SubjectFor(ch, st)
  {
    assert ("channel." + ch) + "" == "channel." + ch;
    assert ("channel." + ch) + ("." + Join(st, '.')) == "channel." + ch + "." + Join(st, '.');
  }

  /** The adapters refuse exactly the same, whether the elements come joined by dots or by slashes. */
  lemma NormalisedExact(els: seq<string>, separator: char)
    requires Proper(els) && (separator == '.' || separator == '/')
    ensures Normalised(Join(els, separator)) == if HasWildcard(els) then None else Some(Join(els, '.'))
  {
    ReplaceJoin(els, '/', '.');
    if separator == '.' {
      NoSlash(els);
      ReplaceNone(Join(els, '.'), '/', '.');
    }
    if els == [] {
      assert Split("", '.') == [""];
    } else {
      SplitJoin(els, '.');
      NonEmptyAll(els);
    }
    assert HasWildcard(els) <==> AnyWild(els);
  }

  lemma NoSlash(els: seq<string>)
    requires Proper(els)
    ensures '/' !in Join(els, '.')
  {
    JoinChars(els, '.', '/');
  }

  lemma {:induction false} ReplaceNone(s: string, a: char, b: char)
    requires a !in s
    ensures ReplaceAll(s, a, b) == s
  {
    if s != "" {
      ReplaceNone(s[1..], a, b);
    }
  }
}
