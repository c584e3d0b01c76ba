// When a NATS message, sent out as an MQTT topic, is parsed back as the same message.
module MqttTopicLaws {
  import opened Common
  import opened Strings
  import opened MqttTopic

  // ----- Content types -------------------------------------------------------------------------------

  /** Decoding undoes encoding if and only if no '_' stands before the first '/' and no '-' before the
      first '+'. */
  lemma TypeRoundTrip(ct: string)
    ensures DecodeType(EncodeType(ct)) == ct <==>
            IndexOf(ct, '/') <= IndexOf(ct, '_') && IndexOf(ct, '+') <= IndexOf(ct, '-')
  {
    var y := ReplaceFirst(ct, '/', '_');
    var z := ReplaceFirst(y, '_', '/');
    ReplaceCommute(y, '+', '-', '_', '/');
    var back := ReplaceFirst(ReplaceFirst(z, '+', '-'), '-', '+');
    assert DecodeType(EncodeType(ct)) == back;
    SwapBack(ct, '/', '_');
    SwapBack(z, '+', '-');
    if back == ct {
      forall k | 0 <= k < |ct| ensures z[k] == ct[k] {
        Outside(ct, y, z, k);
        SwapOnly(z, '+', '-', k);
      }
      assert z == ct;
    }
  }

  lemma SwapOnly(s: string, a: char, b: char, k: nat)
    requires k < |s| && a != b
    ensures var t := ReplaceFirst(ReplaceFirst(s, a, b), b, a);
            t[k] == s[k] || (s[k] in {a, b} && t[k] in {a, b})
  {
  }

  lemma Outside(ct: string, y: string, z: string, k: nat)
    requires y == ReplaceFirst(ct, '/', '_') && z == ReplaceFirst(y, '_', '/') && k < |ct|
    ensures z[k] == ct[k] || (ct[k] in {'/', '_'} && z[k] in {'/', '_'})
  {
    SwapOnly(ct, '/', '_', k);
  }

  predicate Same(c: char, e: char) {
    c == e || (c == '/' && e == '_') || (c == '+' && e == '-')
  }

  /** Encoding moves nothing and touches only '/' and '+'. */
  lemma EncodeAt(ct: string)
    ensures |EncodeType(ct)| == |ct| && forall k :: 0 <= k < |ct| ==> Same(ct[k], EncodeType(ct)[k])
  {
  }

  lemma EncodeKeeps(ct: string, x: char)
    requires x !in {'/', '+', '_', '-'}
    ensures x in ct <==> x in EncodeType(ct)
  {
    EncodeAt(ct);
    var e := EncodeType(ct);
    if x in ct {
      var k :| 0 <= k < |ct| && ct[k] == x;
      assert e[k] == x;
    }
    if x in e {
      var k :| 0 <= k < |e| && e[k] == x;
      assert Same(ct[k], e[k]);
    }
  }

  predicate OneSlash(s: string) {
    forall i, j :: 0 <= i < j < |s| && s[i] == '/' ==> s[j] != '/'
  }

  lemma SlashLeft(ct: string)
    ensures '/' in EncodeType(ct) <==> !OneSlash(ct)
  {
    var i, e := IndexOf(ct, '/'), EncodeType(ct);
    var y := ReplaceFirst(ct, '/', '_');
    forall k | 0 <= k < |ct| ensures e[k] == '/' <==> k != i && ct[k] == '/' {
      assert y[k] == '/' <==> k != i && ct[k] == '/';
    }
    if !OneSlash(ct) {
      var a, b :| 0 <= a < b < |ct| && ct[a] == '/' && ct[b] == '/';
      assert i <= a && e[b] == '/';
    }
  }

  /** s starts with w. */
  predicate Starts(w: string, s: string) {
    |w| <= |s| && s[..|w|] == w
  }

  const CONTROL: string := "control"

  lemma StartsEncoded(ct: string)
    ensures Starts(CONTROL, EncodeType(ct)) <==> Starts(CONTROL, ct)
  {
    EncodeAt(ct);
    var e := EncodeType(ct);
    assert forall c :: c in CONTROL ==> c !in {'/', '+', '_', '-'};
    if |ct| >= 7 {
      forall k | 0 <= k < 7 ensures e[k] == CONTROL[k] <==> ct[k] == CONTROL[k] {
        assert CONTROL[k] in CONTROL;
        assert Same(ct[k], e[k]);
      }
      if Starts(CONTROL, e) {
        forall k | 0 <= k < 7 ensures ct[k] == CONTROL[k] {
          assert e[..7][k] == CONTROL[k];
        }
        assert ct[..7] == CONTROL;
      }
      if Starts(CONTROL, ct) {
        forall k | 0 <= k < 7 ensures e[k] == CONTROL[k] {
          assert ct[..7][k] == CONTROL[k];
        }
        assert e[..7] == CONTROL;
      }
    }
  }

  // ----- The channel ---------------------------------------------------------------------------------

  lemma {:induction false} StartsFirst(w: string, s: string)
    requires '/' !in w
    ensures Starts(w, s) <==> Starts(w, Split(s, '/')[0])
  {
    if w != "" && s != "" {
      assert w == [w[0]] + w[1..];
      StartsFirst(w[1..], s[1..]);
      var p := Split(s, '/')[0];
      assert Starts(w, s) <==> s[0] == w[0] && Starts(w[1..], s[1..]) by {
        assert s == [s[0]] + s[1..];
      }
      if s[0] != '/' {
        assert p == [s[0]] + Split(s[1..], '/')[0];
        assert Starts(w, p) <==> p[0] == w[0] && Starts(w[1..], p[1..]);
      }
    }
  }

  /** A slash before w is a part, not the first, that starts with w. */
  ghost predicate Occurs(s: string, w: string) {
    exists i: nat :: At(s, "/" + w, i)
  }

  ghost predicate SomeStarts(parts: seq<string>, w: string) {
    exists p :: p in parts && Starts(w, p)
  }

  lemma {:induction false} OccursInPart(s: string, w: string)
    requires '/' !in w
    ensures Occurs(s, w) <==> SomeStarts(Split(s, '/')[1..], w)
  {
    if s == "" {
      assert !Occurs(s, w);
    } else {
      var rest := Split(s[1..], '/');
      OccursInPart(s[1..], w);
      OccursNext(s, w);
      AtHead(s, w);
      StartsFirst(w, s[1..]);
      SomeStartsHead(rest, w);
      assert Split(s, '/')[1..] == if s[0] == '/' then rest else rest[1..];
    }
  }

  lemma SomeStartsHead(parts: seq<string>, w: string)
    requires parts != []
    ensures SomeStarts(parts, w) <==> Starts(w, parts[0]) || SomeStarts(parts[1..], w)
  {
    assert parts[0] in parts;
    assert forall p :: p in parts <==> p == parts[0] || p in parts[1..];
  }

  lemma OccursNext(s: string, w: string)
    requires s != ""
    ensures Occurs(s, w) <==> At(s, "/" + w, 0) || Occurs(s[1..], w)
  {
    var sw, t := "/" + w, s[1..];
    if Occurs(s, w) {
      var i: nat :| At(s, sw, i);
      if i > 0 {
        AtNext(s, sw, i - 1);
      }
    }
    if Occurs(t, w) {
      var i: nat :| At(t, sw, i);
      AtNext(s, sw, i);
    }
  }

  lemma AtNext(s: string, w: string, i: nat)
    requires s != ""
    ensures At(s[1..], w, i) <==> At(s, w, i + 1)
  {
    var t := s[1..];
    if i + |w| <= |t| {
      assert t[i..i + |w|] == s[i + 1..i + 1 + |w|];
    }
  }

  lemma AtHead(s: string, w: string)
    requires s != ""
    ensures At(s, "/" + w, 0) <==> s[0] == '/' && Starts(w, s[1..])
  {
    var sw := "/" + w;
    assert sw[1..] == w && s == [s[0]] + s[1..];
    if At(s, sw, 0) {
      assert s[0..|sw|] == sw;
      assert s[0] == sw[0];
      assert s[1..][..|w|] == sw[1..];
    }
  }

  /** Searching a built topic: pre is "channels/" and mid is "/messages". */
  lemma Searched(pre: string, ch: string, mid: string, tail: string, w: string)
    requires |pre| == 9 && |mid| == 9 && mid[0] == '/' && mid[1] == 'm' && '/' !in mid[1..]
    requires ch != "" && '/' !in ch && w != "" && w[0] != 'm'
    ensures var topic, n := pre + ch + mid + tail, 9 + |ch|;
            FindFrom(topic, mid, 10) == n &&
            (FindFrom(topic, "/" + w, 10) < |topic| <==> Occurs(tail, w)) &&
            (FindFrom(topic, "/" + w, 10) < |topic| ==> FindFrom(topic, "/" + w, 10) > n)
  {
    var sw, topic, n := "/" + w, pre + ch + mid + tail, 9 + |ch|;
    assert topic[n..n + 9] == mid;
    forall j | 10 <= j < n ensures topic[j] != '/' {
      assert topic[j] == ch[j - 9];
    }
    forall j: nat | n < j < n + 9 ensures topic[j] != '/' {
      assert topic[j] == mid[1..][j - n - 1];
    }
    forall j: nat | 10 <= j && At(topic, sw, j) ensures j >= n + 9 && At(tail, sw, j - (n + 9)) {
      AtChars(topic, sw, j);
      assert topic[n + 1] == mid[1];
      assert tail[j - (n + 9)..j - (n + 9) + |sw|] == topic[j..j + |sw|];
    }
    forall k: nat | At(tail, sw, k) ensures At(topic, sw, k + n + 9) {
      assert topic[k + n + 9..k + n + 9 + |sw|] == tail[k..k + |sw|];
    }
    if Occurs(tail, w) {
      var k: nat :| At(tail, sw, k);
      assert At(topic, sw, k + n + 9);
    }
    var f := FindFrom(topic, mid, 10);
    assert At(topic, mid, n);
    AtChars(topic, mid, f);
  }

  lemma AtChars(s: string, w: string, i: nat)
    requires |w| >= 2
    ensures At(s, w, i) ==> s[i] == w[0] && s[i + 1] == w[1]
  {
    if At(s, w, i) {
      var t := s[i..i + |w|];
      assert t[0] == s[i] && t[1] == s[i + 1];
    }
  }

  lemma LineFreeConcat(a: string, b: string)
    ensures LineFree(a + b) <==> LineFree(a) && LineFree(b)
  {
    assert forall c :: c in a ==> c in a + b;
    assert forall c :: c in b ==> c in a + b;
  }

  lemma MatchIs(topic: string, word: string, f: nat)
    requires |topic| >= 10 && topic[..9] == "channels/" && f == FindFrom(topic, "/" + word, 10)
    ensures Match(topic, word) == if LineFree(topic[9..]) && f < |topic| then Some(topic[9..f]) else None
  {
  }

  lemma Decide(topic: string, ch: string, c: nat, m: nat, free: bool)
    requires 9 + |ch| == m < |topic| && ch != "" && topic[9..m] == ch
    requires 9 <= c <= |topic| && (c < |topic| ==> c > m)
    requires Match(topic, "control") == if free && c < |topic| then Some(topic[9..c]) else None
    requires Match(topic, "messages") == if free && m < |topic| then Some(topic[9..m]) else None
    ensures ParseTopic(topic) == Some(ch) <==> free && c == |topic|
    ensures ParseTopic(topic).Some? <==> free
  {
    assert |topic[9..c]| == c - 9;
  }

  /** The topic gives back its channel if and only if it holds no line terminator and no element after
      the channel starts with "control". */
  lemma ChannelExact(ch: string, tail: string)
    requires ch != "" && '/' !in ch
    ensures ParseTopic("channels/" + ch + "/messages" + tail) == Some(ch) <==>
            LineFree(ch) && LineFree(tail) && !SomeStarts(Split(tail, '/')[1..], CONTROL)
    ensures ParseTopic("channels/" + ch + "/messages" + tail).Some? <==> LineFree(ch) && LineFree(tail)
  {
    var mid: string := "/messages";
    assert mid[1..] == "messages" && LineFree(mid) && "/" + "messages" == mid;
    var free := ChannelFound("channels/", ch, mid, tail);
  }

  lemma Pieces(pre: string, ch: string, mid: string, tail: string)
    requires |pre| == 9 && LineFree(mid)
    ensures var topic := pre + ch + mid + tail;
            && topic[..9] == pre
            && topic[9..9 + |ch|] == ch
            && (LineFree(topic[9..]) <==> LineFree(ch) && LineFree(tail))
  {
    var topic := pre + ch + mid + tail;
    assert topic[9..] == ch + (mid + tail);
    LineFreeConcat(ch, mid + tail);
    LineFreeConcat(mid, tail);
  }

  lemma ChannelFound(pre: string, ch: string, mid: string, tail: string) returns (free: bool)
    requires pre == "channels/" && mid == "/" + "messages" && '/' !in mid[1..] && LineFree(mid)
    requires ch != "" && '/' !in ch
    ensures free <==> LineFree(ch) && LineFree(tail)
    ensures var topic := pre + ch + mid + tail;
            (ParseTopic(topic) == Some(ch) <==> free && !SomeStarts(Split(tail, '/')[1..], CONTROL)) &&
            (ParseTopic(topic).Some? <==> free)
  {
    var topic := pre + ch + mid + tail;
    Searched(pre, ch, mid, tail, CONTROL);
    OccursInPart(tail, CONTROL);
    Pieces(pre, ch, mid, tail);
    free := LineFree(topic[9..]);
    var m, c := 9 + |ch|, FindFrom(topic, "/" + CONTROL, 10);
    MatchIs(topic, "messages", m);
    MatchIs(topic, CONTROL, c);
    Decide(topic, ch, c, m, free);
  }

  // ----- The elements --------------------------------------------------------------------------------

  lemma ElementsConcat(a: seq<string>, b: seq<string>)
    ensures Elements(a + b) == Elements(a) + Elements(b)
  {
    if a == [] {
      assert a + b == b;
      assert Split("", '.') == [""];
    } else if b == [] {
      assert a + b == a;
      assert Split("", '.') == [""];
    } else {
      JoinConcat(a, b, '.');
      SplitAt(Join(a, '.'), Join(b, '.'), '.');
      NonEmptyConcat(Split(Join(a, '.'), '.'), Split(Join(b, '.'), '.'));
    }
  }

  lemma ElementsNormal(els: seq<string>)
    requires Normal(els)
    ensures Elements(els) == els
  {
    if els == [] {
      assert Split("", '.') == [""];
    } else {
      SplitJoin(els, '.');
      NonEmptyAll(els);
    }
  }

  lemma JoinBefore(part: string, rest: seq<string>, d: char)
    requires rest != []
    ensures Join([part] + rest, d) == part + [d] + Join(rest, d)
  {
    assert ([part] + rest)[1..] == rest;
  }

  lemma JoinOnto(first: char, rest: seq<string>, d: char)
    requires rest != []
    ensures Join([[first] + rest[0]] + rest[1..], d) == [first] + Join(rest, d)
  {
    if |rest| > 1 {
      JoinBefore([first] + rest[0], rest[1..], d);
      assert ([first] + rest[0]) + [d] + Join(rest[1..], d) == [first] + (rest[0] + [d] + Join(rest[1..], d));
    }
  }

  lemma {:induction false} JoinSplit(s: string, c: char, d: char)
    ensures Join(Split(s, c), d) == ReplaceAll(s, c, d)
  {
    if s != "" {
      JoinSplit(s[1..], c, d);
      var rest := Split(s[1..], c);
      if s[0] == c {
        JoinBefore("", rest, d);
      } else {
        JoinOnto(s[0], rest, d);
      }
    }
  }

  /** A part is no longer than the string, and as long only when it is the string. */
  lemma {:induction false} PartLength(s: string, c: char)
    ensures forall p :: p in Split(s, c) ==> |p| <= |s| && (|p| == |s| ==> c !in s)
  {
    if s != "" {
      PartLength(s[1..], c);
      var rest := Split(s[1..], c);
      assert s == [s[0]] + s[1..];
      forall p | p in Split(s, c) ensures |p| <= |s| && (|p| == |s| ==> c !in s) {
        if s[0] != c && p != [s[0]] + rest[0] {
          assert p in rest[1..];
          assert p in rest;
        } else if s[0] != c {
          assert rest[0] in rest;
        }
      }
    }
  }

  /** What is left of an encoded content type among the elements: it is all of it, in one element, or
      every element is shorter. */
  lemma TypeElements(enc: string)
    requires enc != ""
    ensures '/' !in enc && '.' !in enc ==> Elements(Split(enc, '/')) == [enc]
    ensures '/' in enc || '.' in enc ==> forall x :: x in Elements(Split(enc, '/')) ==> |x| < |enc|
  {
    JoinSplit(enc, '/', '.');
    var s := ReplaceAll(enc, '/', '.');
    ReplaceGone(enc, '/', '.');
    if '/' in enc || '.' in enc {
      assert '.' in s;
      PartLength(s, '.');
      forall x | x in Elements(Split(enc, '/')) ensures |x| < |enc| {
        NonEmptyIn(Split(s, '.'), x);
      }
    } else {
      SplitWithout(enc, '/');
      SplitWithout(enc, '.');
      assert Join([enc], '.') == enc;
      NonEmptyAll([enc]);
    }
  }

  /** Joining normal elements loses nothing. */
  lemma JoinInjective(a: seq<string>, b: seq<string>)
    requires Normal(a) && Normal(b) && Join(a, '.') == Join(b, '.')
    ensures a == b
  {
    assert Split("", '.') == [""];
    if a != [] {
      SplitJoin(a, '.');
      assert a[0] in a;
    }
    if b != [] {
      SplitJoin(b, '.');
      assert b[0] in b;
    }
  }

  // ----- The whole message ---------------------------------------------------------------------------

  /** The parts of a built topic after "messages". */
  function Parts(els: seq<string>, ct: string): seq<string> {
    els + if ct != "" then ["ct"] + Split(EncodeType(ct), '/') else []
  }

  lemma TailParts(m: Nats, els: seq<string>)
    requires Normal(els) && m.subtopic == Join(els, '.')
    ensures Split(Tail(m), '/') == [""] + Parts(els, m.contentType)
  {
    var ct := m.contentType;
    var sub, typ := if els != [] then "/" + Join(els, '/') else "", if ct != "" then "/ct/" + EncodeType(ct) else "";
    SubtopicTail(els);
    assert Tail(m) == sub + typ;
    if ct == "" {
      assert sub + typ == sub;
      assert Parts(els, ct) == els;
    } else {
      var enc := EncodeType(ct);
      assert '/' !in "ct";
      JoinedTail(sub, els, "ct", "/ct/", enc);
    }
  }

  lemma JoinedTail(sub: string, els: seq<string>, word: string, slashed: string, enc: string)
    requires Split(sub, '/') == [""] + els && '/' !in word && slashed == ['/'] + word + ['/']
    ensures Split(sub + (slashed + enc), '/') == [""] + (els + ([word] + Split(enc, '/')))
  {
    SplitWithout(word, '/');
    TypeTail(sub, word, enc);
    Associate([""], els, [word] + Split(enc, '/'));
  }

  lemma Regroup<T>(a: seq<T>, b: seq<T>, c: seq<T>, d: seq<T>, e: seq<T>)
    ensures a + (b + c + d + e) == a + b + (c + d + e)
  {
  }

  lemma TypeTail(sub: string, word: string, enc: string)
    ensures Split(sub + (['/'] + word + ['/'] + enc), '/') == Split(sub, '/') + (Split(word, '/') + Split(enc, '/'))
  {
    var t := word + ['/'] + enc;
    SplitAt(word, enc, '/');
    Regroup(sub, ['/'], word, ['/'], enc);
    SplitAt(sub, t, '/');
  }

  lemma SubtopicTail(els: seq<string>)
    requires Normal(els)
    ensures Join(els, '.') == "" <==> els == []
    ensures ReplaceAll(Join(els, '.'), '.', '/') == Join(els, '/')
    ensures Split(if els != [] then "/" + Join(els, '/') else "", '/') == [""] + els
  {
    ReplaceJoin(els, '.', '/');
    if els != [] {
      SplitJoin(els, '/');
      SplitAt("", Join(els, '/'), '/');
      assert "" + ['/'] + Join(els, '/') == "/" + Join(els, '/');
      assert els[0] in els;
    }
  }

  lemma {:induction false} SplitPrefix(a: string, t: string, c: char)
    requires c !in a
    ensures Split(a + t, c) == [a + Split(t, c)[0]] + Split(t, c)[1..]
  {
    if a == "" {
      assert a + t == t && a + Split(t, c)[0] == Split(t, c)[0];
    } else {
      assert (a + t)[1..] == a[1..] + t;
      SplitPrefix(a[1..], t, c);
      assert [a[0]] + (a[1..] + Split(t, c)[0]) == a + Split(t, c)[0];
    }
  }

  lemma HeadShape<T>(a: seq<T>, c: seq<T>, b: seq<T>, d: seq<T>, e: seq<T>)
    ensures a + c + (b + c + (d + e)) == (a + c) + b + (c + d) + e
  {
  }

  lemma HeadParts(chan: string, pre: string, ch: string, mes: string, mid: string, tail: string, parts: seq<string>)
    requires '/' !in chan && '/' !in ch && '/' !in mes && Split(tail, '/') == [""] + parts
    requires pre == chan + ['/'] && mid == ['/'] + mes
    ensures Split(pre + ch + mid + tail, '/') == [chan, ch, mes] + parts
  {
    SplitPrefix(mes, tail, '/');
    assert mes + "" == mes;
    SplitAt(ch, mes + tail, '/');
    SplitAt(chan, ch + ['/'] + (mes + tail), '/');
    SplitWithout(ch, '/');
    SplitWithout(chan, '/');
    HeadShape(chan, ['/'], ch, mes, tail);
  }

  lemma TopicParts(m: Nats, els: seq<string>)
    requires m.protocol != "mqtt" && '/' !in m.channel && Normal(els) && m.subtopic == Join(els, '.')
    ensures Split(TopicOf(m).value, '/') == ["channels", m.channel, "messages"] + Parts(els, m.contentType)
  {
    TailParts(m, els);
    Headed(m.channel, Tail(m), Parts(els, m.contentType));
  }

  lemma Headed(ch: string, tail: string, parts: seq<string>)
    requires '/' !in ch && Split(tail, '/') == [""] + parts
    ensures Split("channels/" + ch + "/messages" + tail, '/') == ["channels", ch, "messages"] + parts
  {
    assert '/' !in "channels" && '/' !in "messages";
    HeadParts("channels", "channels/", ch, "messages", "/messages", tail, parts);
  }

  lemma TypeMark()
    ensures Elements(["ct"]) == ["ct"]
  {
    ElementsNormal(["ct"]);
  }

  lemma PartElements(els: seq<string>, ct: string)
    requires Normal(els)
    ensures Elements(Parts(els, ct)) == if ct == "" then els else els + (["ct"] + Elements(Split(EncodeType(ct), '/')))
  {
    ElementsNormal(els);
    if ct == "" {
      assert els + [] == els;
    } else {
      var t := Split(EncodeType(ct), '/');
      ElementsConcat(els, ["ct"] + t);
      ElementsConcat(["ct"], t);
      TypeMark();
    }
  }

  /** The content types that come back: no '.', at most one '/', not starting with "control", no
      wildcard beside another character, no '_' before the first '/' and no '-' before the first '+'. */
  predicate TypeSurvives(ct: string) {
    && '.' !in ct
    && OneSlash(ct)
    && !Starts(CONTROL, ct)
    && !Wild(ct)
    && IndexOf(ct, '/') <= IndexOf(ct, '_')
    && IndexOf(ct, '+') <= IndexOf(ct, '-')
  }

  lemma WildEncoded(ct: string)
    ensures Wild(EncodeType(ct)) <==> Wild(ct)
  {
    EncodeAt(ct);
    EncodeKeeps(ct, '*');
    EncodeKeeps(ct, '>');
  }

  /** A content type that is one element. */
  lemma OneElement(els: seq<string>, ct: string)
    requires ct != "" && '.' !in ct && OneSlash(ct)
    ensures var enc, x := EncodeType(ct), Elements(Split(EncodeType(ct), '/'));
            var all := els + (["ct"] + x);
            && Split(enc, '/') == [enc] && x == [enc]
            && SubtopicElements(all) == els
            && TypeOf(all) == DecodeType(enc)
  {
    var enc := EncodeType(ct);
    EncodeAt(ct);
    EncodeKeeps(ct, '.');
    SlashLeft(ct);
    TypeElements(enc);
    SplitWithout(enc, '/');
    var all := els + (["ct"] + [enc]);
    assert all[|all| - 2] == "ct" && all[..|all| - 2] == els;
  }

  /** Elements shorter than the content type do not give it back. */
  lemma Lost(els: seq<string>, ct: string, x: seq<string>)
    requires Normal(els) && ct != "" && forall e :: e in x ==> |e| < |ct|
    ensures var all := els + (["ct"] + x);
            TypeOf(all) != ct || Join(SubtopicElements(all), '.') != Join(els, '.')
  {
    var all := els + (["ct"] + x);
    if x == [] {
      assert all == els + ["ct"];
      if HasType(all) {
        Shorter(els, all[..|all| - 2]);
      }
    } else {
      var last := x[|x| - 1];
      assert all[|all| - 1] == last && last in x;
      assert |DecodeType(last)| == |last|;
    }
  }

  lemma Shorter(els: seq<string>, st: seq<string>)
    requires Normal(els) && |st| < |els| && st == els[..|st|]
    ensures Join(st, '.') != Join(els, '.')
  {
    forall e | e in st ensures e in els {
      var i :| 0 <= i < |st| && st[i] == e;
      assert els[i] == e;
    }
    if Join(st, '.') == Join(els, '.') {
      JoinInjective(els, st);
    }
  }

  /** A content type that falls apart is lost. */
  lemma FallsApart(els: seq<string>, ct: string)
    requires Normal(els) && ct != "" && !('.' !in ct && OneSlash(ct))
    ensures var all := els + (["ct"] + Elements(Split(EncodeType(ct), '/')));
            TypeOf(all) != ct || Join(SubtopicElements(all), '.') != Join(els, '.')
  {
    var enc := EncodeType(ct);
    EncodeAt(ct);
    EncodeKeeps(ct, '.');
    SlashLeft(ct);
    TypeElements(enc);
    Lost(els, ct, Elements(Split(enc, '/')));
  }

  predicate Survives(m: Nats, els: seq<string>) {
    && LineFree(m.channel)
    && LineFree(m.subtopic)
    && LineFree(m.contentType)
    && (forall e :: e in els ==> !Starts(CONTROL, e))
    && (if m.contentType == "" then !HasType(els) else TypeSurvives(m.contentType))
  }

  lemma {:induction false} LineFreeReplaced(s: string, a: char, b: char)
    requires !Terminator(a) && !Terminator(b)
    ensures LineFree(ReplaceAll(s, a, b)) <==> LineFree(s)
  {
    if s != "" {
      assert s == [s[0]] + s[1..];
      LineFreeReplaced(s[1..], a, b);
      LineFreeConcat([s[0]], s[1..]);
      var c := if s[0] == a then b else s[0];
      LineFreeConcat([c], ReplaceAll(s[1..], a, b));
      assert [c][0] in [c] && [s[0]][0] in [s[0]];
      assert LineFree([c]) <==> !Terminator(c);
      assert LineFree([s[0]]) <==> !Terminator(s[0]);
    }
  }

  lemma LineFreeEncoded(ct: string)
    ensures LineFree(EncodeType(ct)) <==> LineFree(ct)
  {
    forall c | Terminator(c) ensures c in ct <==> c in EncodeType(ct) {
      EncodeKeeps(ct, c);
    }
  }

  lemma LineFreeTail(m: Nats)
    ensures LineFree(Tail(m)) <==> LineFree(m.subtopic) && LineFree(m.contentType)
  {
    var r, enc := ReplaceAll(m.subtopic, '.', '/'), EncodeType(m.contentType);
    var sub, typ := if m.subtopic != "" then "/" + r else "", if m.contentType != "" then "/ct/" + enc else "";
    LineFreeReplaced(m.subtopic, '.', '/');
    LineFreeEncoded(m.contentType);
    LineFreeConcat(sub, typ);
    LineFreeConcat("/", r);
    LineFreeConcat("/ct/", enc);
  }

  /** Which parts start with "control". */
  lemma PartsStart(els: seq<string>, ct: string)
    ensures SomeStarts(Parts(els, ct), CONTROL) <==>
            SomeStarts(els, CONTROL) || (ct != "" && SomeStarts(Split(EncodeType(ct), '/'), CONTROL))
  {
    if ct != "" {
      var s := Split(EncodeType(ct), '/');
      assert !Starts(CONTROL, "ct");
      assert forall p :: p in Parts(els, ct) <==> p in els || p == "ct" || p in s;
    } else {
      assert Parts(els, ct) == els;
    }
  }

  lemma TypeExact(els: seq<string>, ct: string)
    requires Normal(els) && ct != ""
    ensures var split := Split(EncodeType(ct), '/');
            var all := els + (["ct"] + Elements(split));
            TypeSurvives(ct) <==>
            && !AnyWild(all) && !SomeStarts(split, CONTROL)
            && TypeOf(all) == ct && Join(SubtopicElements(all), '.') == Join(els, '.')
    ensures TypeSurvives(ct) ==> SubtopicElements(els + (["ct"] + Elements(Split(EncodeType(ct), '/')))) == els
  {
    if '.' in ct || !OneSlash(ct) {
      FallsApart(els, ct);
    } else {
      OneElement(els, ct);
      WildEncoded(ct);
      StartsEncoded(ct);
      TypeRoundTrip(ct);
      OneMore(els, EncodeType(ct));
    }
  }

  lemma OneMore(els: seq<string>, enc: string)
    requires Normal(els)
    ensures AnyWild(els + (["ct"] + [enc])) <==> Wild(enc)
    ensures SomeStarts([enc], CONTROL) <==> Starts(CONTROL, enc)
  {
    var all := els + (["ct"] + [enc]);
    assert enc in all && enc in [enc];
    assert forall e :: e in all <==> e in els || e == "ct" || e == enc;
  }

  lemma NoType(els: seq<string>)
    requires Normal(els)
    ensures !AnyWild(els)
    ensures (TypeOf(els) == "" && Join(SubtopicElements(els), '.') == Join(els, '.')) <==> !HasType(els)
    ensures !HasType(els) ==> SubtopicElements(els) == els
  {
    if HasType(els) {
      Shorter(els, els[..|els| - 2]);
    }
  }

  /** The translation to MQTT and back: a message with a slash-free channel and a normalised subtopic,
      sent out as a topic, is parsed back as the same channel, subtopic and content type, under the
      NATS subject it came from, if and only if it survives. */
  lemma RoundTrip(m: Nats, els: seq<string>)
    requires m.protocol != "mqtt" && m.channel != "" && '/' !in m.channel
    requires Normal(els) && m.subtopic == Join(els, '.')
    ensures Translated(TopicOf(m).value) ==
              Accepted(m.channel, "messages", m.subtopic, m.contentType, Subject(m.channel, els)) <==>
            Survives(m, els)
  {
    var topic, tail, ct := TopicOf(m).value, Tail(m), m.contentType;
    var parts := Parts(els, ct);
    TopicParts(m, els);
    assert Split(topic, '/')[3..] == parts;
    PartElements(els, ct);
    ChannelExact(m.channel, tail);
    TailParts(m, els);
    assert Split(tail, '/')[1..] == parts;
    LineFreeTail(m);
    PartsStart(els, ct);
    if ct == "" {
      NoType(els);
    } else {
      TypeExact(els, ct);
    }
  }

  /** The same for every subtopic that the HTTP, WebSocket or CoAP adapter accepted. */
  lemma AdapterRoundTrip(unescaped: string, m: Nats) returns (els: seq<string>)
    requires m.protocol != "mqtt" && m.channel != "" && '/' !in m.channel && Normalised(unescaped) == Some(m.subtopic)
    ensures Join(els, '.') == m.subtopic && Normal(els)
    ensures Translated(TopicOf(m).value) ==
              Accepted(m.channel, "messages", m.subtopic, m.contentType, Subject(m.channel, els)) <==>
            Survives(m, els)
  {
    els := NormalisedIs(unescaped);
    RoundTrip(m, els);
  }

  // ----- Messages that are lost -----------------------------------------------------------------------

  /** A subtopic element that starts with "control" makes the parser take another channel. */
  lemma ControlMisleads(ch: string, e: string) returns (m: Nats)
    requires ch != "" && '/' !in ch && LineFree(ch) && Normal([e]) && LineFree(e) && Starts(CONTROL, e)
    ensures m == Nats(ch, e, "", "http")
    ensures ParseTopic(TopicOf(m).value).Some? && ParseTopic(TopicOf(m).value) != Some(ch)
  {
    m := Nats(ch, e, "", "http");
    TailParts(m, [e]);
    LineFreeTail(m);
    var rest := Split(Tail(m), '/')[1..];
    assert rest == [e] && e in rest;
    ChannelExact(ch, Tail(m));
  }

  /** A content type with an underscore before its slash comes back as another one. */
  lemma UnderscoreLost()
    ensures DecodeType(EncodeType("a_b/c")) != "a_b/c"
  {
    var ct: string := "a_b/c";
    FirstIs(ct, '/', 3);
    FirstIs(ct, '_', 1);
    TypeRoundTrip(ct);
  }
}
