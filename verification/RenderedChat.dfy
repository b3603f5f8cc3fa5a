/**
 What the token streams of chats are, said with slices of their texts (src/tokenizer/ds4_tokenizer.c:524-602): a
 rendered chat is cut at the leftmost control texts, and a built prompt carries its texts between the role markers.
 */
module RenderedChat {
  import opened ByteEncoding
  import opened StrTable
  import opened Vocabulary
  import opened Bpe
  import opened Detokenizer
  import opened PreTokenizer
  import opened ControlTokens
  import opened ChatTokenizer

  /** The text goes on with key from p on. */
  ghost predicate GoesOn(text: Text, p: int, key: Key) {
    0 <= p <= |text| && key <= text[p..]
  }

  /** Key k, and none before it in the list, stands at p. */
  ghost predicate Stands(keys: seq<Key>, text: Text, p: int, k: nat) {
    k < |keys| && GoesOn(text, p, keys[k]) && forall j :: 0 <= j < k ==> !GoesOn(text, p, keys[j])
  }

  ghost predicate Free(keys: seq<Key>, text: Text, lo: nat, hi: nat) {
    forall q, j :: lo <= q < hi && 0 <= j < |keys| ==> !GoesOn(text, q, keys[j])
  }

  /** The text from `from` on, cut at the leftmost keys that do not overlap. */
  ghost predicate IsSplit(keys: seq<Key>, text: Text, from: nat, parts: seq<Part>)
    requires from <= |text|
    decreases |parts|
  {
    || (Free(keys, text, from, |text|) && parts == [Plain(text[from..])])
    || (exists p: nat, k: nat ::
          && from <= p && Free(keys, text, from, p) && Stands(keys, text, p, k) && |keys[k]| > 0
          && |parts| >= 2 && parts[0] == Plain(text[from..p]) && parts[1] == Special(k)
          && IsSplit(keys, text, p + |keys[k]|, parts[2..]))
  }

  lemma OccursIsGoesOn(text: Text, p: nat, key: Key)
    requires p <= |text|
    ensures OccursAt(text, p, key) <==> GoesOn(text, p, key)
  {
    if OccursAt(text, p, key) {
      assert text[p..][..|key|] == text[p..p + |key|];
    }
    if GoesOn(text, p, key) {
      assert text[p..][..|key|] == key && text[p..p + |key|] == text[p..][..|key|];
    }
  }

  lemma {:induction false} FirstStands(keys: seq<Key>, text: Text, p: nat, k: nat)
    requires k <= |keys| && p <= |text|
    ensures match FirstAt(keys, text, p, k)
      case None => forall j :: k <= j < |keys| ==> !GoesOn(text, p, keys[j])
      case Some(r) => r < |keys| && GoesOn(text, p, keys[r]) && forall j :: k <= j < r ==> !GoesOn(text, p, keys[j])
    decreases |keys| - k
  {
    hide OccursAt, GoesOn;
    if k == |keys| {
    } else {
      OccursIsGoesOn(text, p, keys[k]);
      FirstStands(keys, text, p, k + 1);
    }
  }

  lemma EndIsFree(keys: seq<Key>, text: Text, p: nat)
    requires AllNonempty(keys) && p == |text|
    ensures forall j :: 0 <= j < |keys| ==> !GoesOn(text, p, keys[j])
  {
    assert text[p..] == [];
  }

  /** The parts still to come are the split of the text from the beginning of the span on, and nothing else is. */
  lemma {:induction false} PartsExactly(keys: seq<Key>, text: Text, span: nat, p: nat, parts: seq<Part>)
    requires AllNonempty(keys) && span <= p <= |text| && Free(keys, text, span, p)
    ensures IsSplit(keys, text, span, parts) <==> parts == Parts(keys, text, span, p)
    decreases |text| - p
  {
    hide Parts, FirstAt, AllNonempty, GoesOn;
    PartsStep(keys, text, span, p);
    FirstStands(keys, text, p, 0);
    if p == |text| {
      EndIsFree(keys, text, p);
      assert text[span..] == text[span..p];
      SplitAtEnd(keys, text, span, parts);
    } else {
      match FirstAt(keys, text, p, 0)
      case None => PartsExactly(keys, text, span, p + 1, parts);
      case Some(k) =>
        assert Stands(keys, text, p, k);
        var next := p + |keys[k]|;
        if |parts| >= 2 { PartsExactly(keys, text, next, next, parts[2..]); }
        PartsExactly(keys, text, next, next, Parts(keys, text, next, next));
        SplitAtKey(keys, text, span, p, k, parts, Parts(keys, text, next, next));
    }
  }

  /** A split that is not the last one begins with the first key. */
  lemma FirstCut(keys: seq<Key>, text: Text, from: nat, parts: seq<Part>) returns (p: nat, k: nat)
    requires from <= |text| && IsSplit(keys, text, from, parts)
    requires !(Free(keys, text, from, |text|) && parts == [Plain(text[from..])])
    ensures from <= p && Free(keys, text, from, p) && Stands(keys, text, p, k) && p + |keys[k]| <= |text|
    ensures |keys[k]| > 0 && |parts| >= 2 && parts[0] == Plain(text[from..p]) && parts[1] == Special(k)
    ensures IsSplit(keys, text, p + |keys[k]|, parts[2..])
  {
    p, k :|
      && from <= p && Free(keys, text, from, p) && Stands(keys, text, p, k) && |keys[k]| > 0
      && |parts| >= 2 && parts[0] == Plain(text[from..p]) && parts[1] == Special(k)
      && IsSplit(keys, text, p + |keys[k]|, parts[2..]);
  }

  lemma SplitAtEnd(keys: seq<Key>, text: Text, span: nat, parts: seq<Part>)
    requires AllNonempty(keys) && span <= |text| && Free(keys, text, span, |text|)
    ensures IsSplit(keys, text, span, parts) <==> parts == [Plain(text[span..])]
  {
    hide GoesOn, AllNonempty;
    EndIsFree(keys, text, |text|);
    if IsSplit(keys, text, span, parts) && parts != [Plain(text[span..])] {
      var p, k := FirstCut(keys, text, span, parts);
    }
  }

  lemma NotFree(keys: seq<Key>, text: Text, span: nat, p: nat, k: nat)
    requires span <= p < |text| && Stands(keys, text, p, k)
    ensures !Free(keys, text, span, |text|)
  {
    assert GoesOn(text, p, keys[k]);
    hide GoesOn;
  }

  lemma SplitAtKey(keys: seq<Key>, text: Text, span: nat, p: nat, k: nat, parts: seq<Part>, rest: seq<Part>)
    requires AllNonempty(keys) && span <= p < |text| && Free(keys, text, span, p) && Stands(keys, text, p, k)
    requires |keys[k]| > 0 && p + |keys[k]| <= |text| && IsSplit(keys, text, p + |keys[k]|, rest)
    requires |parts| >= 2 ==> (IsSplit(keys, text, p + |keys[k]|, parts[2..]) <==> parts[2..] == rest)
    ensures IsSplit(keys, text, span, parts) <==> parts == [Plain(text[span..p]), Special(k)] + rest
  {
    hide IsSplit, GoesOn, AllNonempty, Free;
    if IsSplit(keys, text, span, parts) {
      NotFree(keys, text, span, p, k);
      var q, j := FirstCut(keys, text, span, parts);
      LeftmostOnce(keys, text, span, p, k, q, j);
      assert parts == [parts[0], parts[1]] + parts[2..];
    }
    if parts == [Plain(text[span..p]), Special(k)] + rest {
      CutMakes(keys, text, span, p, k, rest);
    }
  }

  lemma CutMakes(keys: seq<Key>, text: Text, span: nat, p: nat, k: nat, rest: seq<Part>)
    requires span <= p < |text| && Free(keys, text, span, p) && Stands(keys, text, p, k)
    requires |keys[k]| > 0 && p + |keys[k]| <= |text| && IsSplit(keys, text, p + |keys[k]|, rest)
    ensures IsSplit(keys, text, span, [Plain(text[span..p]), Special(k)] + rest)
  {
    hide GoesOn, Free, Stands;
    var parts := [Plain(text[span..p]), Special(k)] + rest;
    assert parts[2..] == rest && parts[0] == Plain(text[span..p]) && parts[1] == Special(k);
  }

  lemma LeftmostOnce(keys: seq<Key>, text: Text, span: nat, p: nat, k: nat, q: nat, j: nat)
    requires span <= p && Free(keys, text, span, p) && Stands(keys, text, p, k)
    requires span <= q && Free(keys, text, span, q) && Stands(keys, text, q, j)
    ensures p == q && k == j
  {
    hide GoesOn;
  }

  /** Tokenizing a rendered chat cuts it at the leftmost control texts, the first of the list where several stand. */
  lemma ChatIsSplit(v: Vocab, keys: seq<Key>, text: Text, parts: seq<Part>)
    requires AllNonempty(keys) && IsSplit(keys, text, 0, parts)
    ensures ChatTokens(v, keys, text) == WithParts(v, [], parts)
  {
    PartsExactly(keys, text, 0, 0, parts);
  }

  // ---- the law ---------------------------------------------------------------------------------------------

  lemma {:induction false} WithPartsFrom(v: Vocab, done: seq<int>, parts: seq<Part>)
    ensures WithParts(v, done, parts) == done + WithParts(v, [], parts)
    decreases |parts|
  {
    hide PartTokens;
    if parts == [] {
      assert done + [] == done;
    } else {
      var t := PartTokens(v, parts[0]);
      WithPartsFrom(v, done + t, parts[1..]);
      WithPartsFrom(v, [] + t, parts[1..]);
      assert [] + t == t;
      assert done + t + WithParts(v, [], parts[1..]) == done + (t + WithParts(v, [], parts[1..]));
    }
  }

  lemma GoesOnBehind(x: Text, b: Text, p: nat, key: Key)
    requires p <= |b|
    ensures OccursAt(x + b, |x| + p, key) <==> OccursAt(b, p, key)
  {
    if p + |key| <= |b| {
      assert (x + b)[|x| + p..|x| + p + |key|] == b[p..p + |key|];
    }
  }

  lemma {:induction false} FirstBehind(keys: seq<Key>, x: Text, b: Text, p: nat, k: nat)
    requires k <= |keys| && p <= |b|
    ensures FirstAt(keys, x + b, |x| + p, k) == FirstAt(keys, b, p, k)
    decreases |keys| - k
  {
    hide OccursAt;
    if k == |keys| {
    } else {
      GoesOnBehind(x, b, p, keys[k]);
      FirstBehind(keys, x, b, p, k + 1);
    }
  }

  /** What stands in front of the scan does not matter. */
  lemma {:induction false} PartsBehind(keys: seq<Key>, x: Text, b: Text, span: nat, p: nat)
    requires AllNonempty(keys) && span <= p <= |b|
    ensures Parts(keys, x + b, |x| + span, |x| + p) == Parts(keys, b, span, p)
    decreases |b| - p
  {
    hide FirstAt, AllNonempty, Parts;
    FirstBehind(keys, x, b, p, 0);
    PartsStep(keys, x + b, |x| + span, |x| + p);
    PartsStep(keys, b, span, p);
    assert (x + b)[|x| + span..|x| + p] == b[span..p];
    if p == |b| {
    } else {
      match FirstAt(keys, b, p, 0)
      case None => PartsBehind(keys, x, b, span, p + 1);
      case Some(k) => PartsBehind(keys, x, b, p + |keys[k]|, p + |keys[k]|);
    }
  }

  lemma {:induction false} PartsSkip(keys: seq<Key>, text: Text, span: nat, p: nat, q: nat)
    requires AllNonempty(keys) && span <= p <= q <= |text| && Free(keys, text, p, q)
    ensures Parts(keys, text, span, p) == Parts(keys, text, span, q)
    decreases q - p
  {
    hide FirstAt, AllNonempty, Parts, GoesOn;
    if p == q {
    } else {
      PartsStep(keys, text, span, p);
      FirstStands(keys, text, p, 0);
      PartsSkip(keys, text, span, p + 1, q);
    }
  }

  lemma GoesOnLonger(a: Text, rest: Text, q: nat, key: Key)
    ensures GoesOn(a, q, key) ==> GoesOn(a + rest, q, key)
  {
    if GoesOn(a, q, key) {
      assert (a + rest)[q..][..|key|] == a[q..][..|key|] == key;
    }
  }

  lemma FreeInFront(keys: seq<Key>, a: Text, rest: Text)
    requires Free(keys, a + rest, 0, |a|)
    ensures Free(keys, a, 0, |a|)
  {
    hide GoesOn;
    forall q: nat, j | q < |a| && 0 <= j < |keys|
      ensures !GoesOn(a, q, keys[j])
    {
      GoesOnLonger(a, rest, q, keys[j]);
    }
  }

  /** The first control text of a chat cuts it: its id stands between the tokens of what is in front and behind. */
  lemma ChatConcat(v: Vocab, keys: seq<Key>, a: Text, k: nat, b: Text)
    requires |keys| == 7 && AllNonempty(keys) && k < 7
    requires Free(keys, a + keys[k] + b, 0, |a|)
    requires forall j :: 0 <= j < k ==> !(keys[j] <= keys[k] + b)
    ensures ChatTokens(v, keys, a + keys[k] + b)
         == ChatTokens(v, keys, a) + [IdList(v)[k]] + ChatTokens(v, keys, b)
    ensures ChatTokens(v, keys, a) == TextTokens(v, a)
  {
    PartsConcat(keys, a, k, b);
    hide Parts, TextTokens, AllNonempty, Free;
    TakeTwo(v, [], a, k, Parts(keys, b, 0, 0));
    WithPartsFrom(v, [] + TextTokens(v, a) + [IdList(v)[k]], Parts(keys, b, 0, 0));
    TakeLast(v, [], a);
    hide WithParts, IdList;
    assert [] + TextTokens(v, a) == TextTokens(v, a);
  }

  lemma PartsConcat(keys: seq<Key>, a: Text, k: nat, b: Text)
    requires k < |keys| && AllNonempty(keys)
    requires Free(keys, a + keys[k] + b, 0, |a|)
    requires forall j :: 0 <= j < k ==> !(keys[j] <= keys[k] + b)
    ensures Parts(keys, a + keys[k] + b, 0, 0) == [Plain(a), Special(k)] + Parts(keys, b, 0, 0)
    ensures Parts(keys, a, 0, 0) == [Plain(a)]
  {
    hide *;
    Between(a, keys[k], b);
    KeyBehind(keys, a, k, b);
    PartsAtKey(keys, a + keys[k] + b, |a|, k);
    PartsBehind(keys, a + keys[k], b, 0, 0);
    FreeInFront(keys, a, keys[k] + b);
    PartsOfFree(keys, a);
  }

  lemma Between(a: Text, key: Key, b: Text)
    ensures a + key + b == a + (key + b) && (a + key + b)[..|a|] == a && |a + key| == |a| + |key|
  {
  }

  /** Behind a stands key k. */
  lemma KeyBehind(keys: seq<Key>, a: Text, k: nat, b: Text)
    requires k < |keys| && AllNonempty(keys) && forall j :: 0 <= j < k ==> !(keys[j] <= keys[k] + b)
    ensures |a| < |a + keys[k] + b| && FirstAt(keys, a + keys[k] + b, |a|, 0) == Some(k)
  {
    assert keys[k] != [];
    hide FirstAt, AllNonempty;
    var text := a + keys[k] + b;
    assert text[|a|..] == keys[k] + b;
    StandsFirst(keys, text, |a|, k, keys[k] + b);
  }

  lemma PartsAtKey(keys: seq<Key>, text: Text, p: nat, k: nat)
    requires AllNonempty(keys) && k < |keys| && p < |text|
    requires Free(keys, text, 0, p) && FirstAt(keys, text, p, 0) == Some(k)
    ensures p + |keys[k]| <= |text|
    ensures Parts(keys, text, 0, 0) == [Plain(text[..p]), Special(k)] + Parts(keys, text, p + |keys[k]|, p + |keys[k]|)
  {
    hide *;
    PartsSkip(keys, text, 0, 0, p);
    PartsStep(keys, text, 0, p);
    assert text[0..p] == text[..p];
  }

  lemma PartsOfFree(keys: seq<Key>, a: Text)
    requires AllNonempty(keys) && Free(keys, a, 0, |a|)
    ensures Parts(keys, a, 0, 0) == [Plain(a)]
  {
    hide *;
    PartsSkip(keys, a, 0, 0, |a|);
    PartsStep(keys, a, 0, |a|);
    assert a[0..|a|] == a;
  }

  lemma StandsFirst(keys: seq<Key>, text: Text, p: nat, k: nat, tail: Text)
    requires k < |keys| && p <= |text| && text[p..] == tail && keys[k] <= tail
    requires forall j :: 0 <= j < k ==> !(keys[j] <= tail)
    ensures FirstAt(keys, text, p, 0) == Some(k)
  {
    FirstStands(keys, text, p, 0);
    assert GoesOn(text, p, keys[k]);
  }

  // ---- the control texts of the source ---------------------------------------------------------------------

  lemma Agree(x: Text, y: Text, i: nat, tail: Text)
    requires i < |x| && i < |y|
    ensures x <= y + tail ==> x[i] == y[i]
  {
    if x <= y + tail {
      assert (y + tail)[i] == y[i] && x[i] == (y + tail)[..|x|][i];
    }
  }

  /** None of the seven control texts begins another. */
  lemma NoneBegins(j: nat, k: nat, b: Text)
    requires j < 7 && k < 7 && j != k
    ensures !(TextList(CONTROL)[j] <= TextList(CONTROL)[k] + b)
  {
    var x, y := TextList(CONTROL)[j], TextList(CONTROL)[k];
    Marks(j);
    Marks(k);
    Agree(x, y, 0, b);
    Agree(x, y, 1, b);
    Agree(x, y, 4, b);
  }

  function Mark0(k: nat): byte { if k == 6 then 0xef else 60 }

  function Mark1(k: nat): byte { if k == 4 then 116 else if k == 5 then 47 else if k == 6 then 0xbd else 0xef }

  function Mark4(k: nat): byte {
    if k == 0 then 0x62 else if k == 1 then 0x65 else if k == 2 then 0x55 else if k == 3 then 0x41 else 0
  }

  lemma Marks(k: nat)
    requires k < 7
    ensures |TextList(CONTROL)[k]| > 4
    ensures TextList(CONTROL)[k][0] == Mark0(k) && TextList(CONTROL)[k][1] == Mark1(k)
    ensures k < 4 ==> TextList(CONTROL)[k][4] == Mark4(k)
  {
  }

  /**
   For the control texts of the source: wherever the first of them stands, at the end of the chat too, exactly its id is
   emitted, and what is in front and behind is tokenized on its own.
   */
  lemma ChatConcatControl(v: Vocab, a: Text, k: nat, b: Text)
    requires k < 7 && AllNonempty(TextList(CONTROL))
    requires Free(TextList(CONTROL), a + TextList(CONTROL)[k] + b, 0, |a|)
    ensures ChatTokens(v, TextList(CONTROL), a + TextList(CONTROL)[k] + b)
         == ChatTokens(v, TextList(CONTROL), a) + [IdList(v)[k]] + ChatTokens(v, TextList(CONTROL), b)
    ensures ChatTokens(v, TextList(CONTROL), a) == TextTokens(v, a)
  {
    hide *;
    var keys := TextList(CONTROL);
    assert |keys| == 7 by { SevenTexts(); }
    forall j | 0 <= j < k
      ensures !(keys[j] <= keys[k] + b)
    {
      NoneBegins(j, k, b);
    }
    ChatConcat(v, keys, a, k, b);
  }

  lemma SevenTexts()
    ensures |TextList(CONTROL)| == 7
  {
  }

  // ---- built prompts ------------------------------------------------------------------------------------------

  /**
   A built prompt is BOS, the reasoning prefix and the system text, the user marker, the prompt, the assistant marker
   and a think tag: what stands between the markers spells these texts and nothing else.
   */
  lemma PromptCarriesTexts(v: Vocab, t: Texts, system: Option<Text>, prompt: Text, mode: ThinkMode, maxPrefix: Text)
    returns (before: seq<int>, body: seq<int>)
    requires VocabOk(v, t) && ControlLike(t) && Complete(v)
    ensures WithPrompt(v, [], system, prompt, mode, maxPrefix)
         == [v.bos] + before + [v.user] + body + [v.assistant, if mode.NoThink? then v.thinkEnd else v.thinkStart]
    ensures TextOf(v, before)
         == (if mode.ThinkMax? then maxPrefix else []) + (if system.Some? then system.value else [])
    ensures TextOf(v, body) == prompt
    ensures forall id :: id in before || id in body ==> id !in ControlIds(v)
  {
    hide *;
    var prefix := if mode.ThinkMax? then maxPrefix else [];
    var said := if system.Some? then system.value else [];
    var first := Spelled(v, t, prefix);
    var second := Spelled(v, t, said);
    before := first + second;
    body := Spelled(v, t, prompt);
    TextOfAppend(v, first, second);
    PromptIs(v, system, prompt, mode, maxPrefix, first, second, body);
  }

  /** The tokens of a text: they spell it, and none of them is a control token. */
  lemma Spelled(v: Vocab, t: Texts, s: Text) returns (ids: seq<int>)
    requires VocabOk(v, t) && ControlLike(t) && Complete(v)
    ensures ids == (if s == [] then [] else TextTokens(v, s))
    ensures TextOf(v, ids) == s && forall id :: id in ids ==> id !in ControlIds(v)
  {
    if s == [] {
      ids := [];
    } else {
      ids := TextTokens(v, s);
      TextRoundTrip(v, s);
      TextNeverControl(v, t, s);
    }
  }

  lemma PromptIs(v: Vocab, system: Option<Text>, prompt: Text, mode: ThinkMode, maxPrefix: Text,
                 first: seq<int>, second: seq<int>, body: seq<int>)
    requires first == if mode.ThinkMax? && maxPrefix != [] then TextTokens(v, maxPrefix) else []
    requires second == if system.Some? && system.value != [] then TextTokens(v, system.value) else []
    requires body == if prompt == [] then [] else TextTokens(v, prompt)
    ensures WithPrompt(v, [], system, prompt, mode, maxPrefix)
         == [v.bos] + (first + second) + [v.user] + body
            + [v.assistant, if mode.NoThink? then v.thinkEnd else v.thinkStart]
  {
    NoTokens(v);
    hide TextTokens;
    var think := if mode.NoThink? then v.thinkEnd else v.thinkStart;
    assert [] + [v.bos] == [v.bos];
    assert WithPreamble(v, [v.bos], system, mode, maxPrefix) == [v.bos] + (first + second);
    assert [v.assistant] + [think] == [v.assistant, think];
  }

  lemma NoTokens(v: Vocab)
    ensures TextTokens(v, []) == []
  {
  }
}
