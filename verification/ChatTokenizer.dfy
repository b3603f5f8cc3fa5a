/**
 Chat prompts (src/tokenizer/ds4_tokenizer.c): building the token stream of a prompt, and
 tokenizing an already rendered chat in which the control texts appear literally.
 */
module ChatTokenizer {
  import opened ByteEncoding
  import opened StrTable
  import opened Vocabulary
  import opened Bpe
  import opened Detokenizer
  import opened PreTokenizer
  import opened ControlTokens

  datatype ThinkMode = NoThink | ThinkHigh | ThinkMax

  // ---- building a prompt --------------------------------------------------------

  /** done, followed by the text between BOS and the user marker. */
  function WithPreamble(v: Vocab, done: seq<int>, system: Option<Text>, mode: ThinkMode, maxPrefix: Text): seq<int> {
    var afterPrefix := if mode.ThinkMax? then done + TextTokens(v, maxPrefix) else done;
    if system.Some? && system.value != [] then afterPrefix + TextTokens(v, system.value) else afterPrefix
  }

  /** done, followed by the prompt. */
  function WithPrompt(v: Vocab, done: seq<int>, system: Option<Text>, prompt: Text, mode: ThinkMode, maxPrefix: Text)
    : seq<int>
  {
    WithPreamble(v, done + [v.bos], system, mode, maxPrefix) + [v.user] + TextTokens(v, prompt)
    + [v.assistant] + [if mode.NoThink? then v.thinkEnd else v.thinkStart]
  }

  method EmitPreamble(v: Vocab, system: Option<Text>, mode: ThinkMode, maxPrefix: Text, out: TokenVec)
    modifies out
    ensures out.v == WithPreamble(v, old(out.v), system, mode, maxPrefix)
  {
    if mode.ThinkMax? {
      BpeTokenizeText(v, maxPrefix, out);
    }
    if system.Some? && system.value != [] {
      BpeTokenizeText(v, system.value, out);
    }
  }

  /** encode_chat_prompt; maxPrefix is DS4_REASONING_EFFORT_MAX_PREFIX. */
  method EncodeChatPrompt(v: Vocab, system: Option<Text>, prompt: Text, mode: ThinkMode, maxPrefix: Text, out: TokenVec)
    modifies out
    ensures out.v == WithPrompt(v, old(out.v), system, prompt, mode, maxPrefix)
  {
    out.Push(v.bos);
    EmitPreamble(v, system, mode, maxPrefix, out);
    out.Push(v.user);
    BpeTokenizeText(v, prompt, out);
    out.Push(v.assistant);
    if !mode.NoThink? {
      out.Push(v.thinkStart);
    } else {
      out.Push(v.thinkEnd);
    }
  }

  /**
   The control ids in a built prompt are exactly the four that encode_chat_prompt pushes, at
   the places it pushes them: no system or user text can move, add or forge a role boundary.
   */
  lemma RoleBoundaries(v: Vocab, t: Texts, system: Option<Text>, prompt: Text, mode: ThinkMode, maxPrefix: Text, i: nat)
    requires VocabOk(v, t) && ControlLike(t)
    requires i < |WithPrompt(v, [], system, prompt, mode, maxPrefix)|
    ensures var out := WithPrompt(v, [], system, prompt, mode, maxPrefix);
            var u := |WithPreamble(v, [v.bos], system, mode, maxPrefix)|;
            var a := u + 1 + |TextTokens(v, prompt)|;
            && 0 < u && |out| == a + 2
            && out[0] == v.bos && out[u] == v.user && out[a] == v.assistant
            && out[a + 1] == (if mode.NoThink? then v.thinkEnd else v.thinkStart)
            && (out[i] in ControlIds(v) <==> i in {0, u, a, a + 1})
  {
    assert [] + [v.bos] == [v.bos];
    var pre, body := WithPreamble(v, [v.bos], system, mode, maxPrefix), TextTokens(v, prompt);
    var out := WithPrompt(v, [], system, prompt, mode, maxPrefix);
    var u := |pre|;
    var a := u + 1 + |body|;
    if i < u {
      assert out[i] == pre[i];
      PreambleNeverControl(v, t, system, mode, maxPrefix, i);
    } else if u < i < a {
      assert out[i] == body[i - u - 1];
      TextNeverControl(v, t, prompt);
    }
  }

  lemma PreambleNeverControl(v: Vocab, t: Texts, system: Option<Text>, mode: ThinkMode, maxPrefix: Text, i: nat)
    requires VocabOk(v, t) && ControlLike(t)
    requires i < |WithPreamble(v, [v.bos], system, mode, maxPrefix)|
    ensures WithPreamble(v, [v.bos], system, mode, maxPrefix)[i] in ControlIds(v) <==> i == 0
    ensures WithPreamble(v, [v.bos], system, mode, maxPrefix)[0] == v.bos
  {
    TextNeverControl(v, t, maxPrefix);
    if system.Some? { TextNeverControl(v, t, system.value); }
  }

  // ---- tokenizing a rendered chat ---------------------------------------------------

  function IdList(v: Vocab): seq<int> {
    [v.bos, v.eos, v.user, v.assistant, v.thinkStart, v.thinkEnd, v.dsml]
  }

  predicate AllNonempty(keys: seq<Key>) {
    forall k :: 0 <= k < |keys| ==> keys[k] != []
  }

  predicate OccursAt(text: Text, p: nat, key: Key) {
    p + |key| <= |text| && text[p..p + |key|] == key
  }

  /** The first key, from k on, that occurs at p. */
  function FirstAt(keys: seq<Key>, text: Text, p: nat, k: nat): (r: Option<nat>)
    requires k <= |keys|
    ensures r.Some? ==> k <= r.value < |keys| && OccursAt(text, p, keys[r.value])
    decreases |keys| - k
  {
    if k == |keys| then None
    else if OccursAt(text, p, keys[k]) then Some(k)
    else FirstAt(keys, text, p, k + 1)
  }

  /** special_token_at: the index of the first control text that occurs at p. */
  method SpecialTokenAt(keys: seq<Key>, text: Text, p: nat) returns (r: Option<nat>)
    ensures r == FirstAt(keys, text, p, 0)
  {
    var i := 0;
    while i < |keys|
      invariant 0 <= i <= |keys|
      invariant FirstAt(keys, text, p, i) == FirstAt(keys, text, p, 0)
    {
      if OccursAt(text, p, keys[i]) { return Some(i); }
      i := i + 1;
    }
    return None;
  }

  /** A rendered chat is plain text with control texts in between. */
  datatype Part = Plain(text: Text) | Special(k: nat)

  /** The parts still to come when the scan stands at p and its plain span began at span. */
  function Parts(keys: seq<Key>, text: Text, span: nat, p: nat): seq<Part>
    requires AllNonempty(keys) && span <= p <= |text|
    decreases |text| - p
  {
    if p == |text| then [Plain(text[span..p])]
    else match FirstAt(keys, text, p, 0)
      case None => Parts(keys, text, span, p + 1)
      case Some(k) => [Plain(text[span..p]), Special(k)] + Parts(keys, text, p + |keys[k]|, p + |keys[k]|)
  }

  function PartTokens(v: Vocab, part: Part): seq<int> {
    match part
    case Plain(s) => TextTokens(v, s)
    case Special(k) => if k < 7 then [IdList(v)[k]] else []
  }

  /** done, followed by the tokens of the parts. */
  function WithParts(v: Vocab, done: seq<int>, parts: seq<Part>): seq<int>
    decreases parts
  {
    if parts == [] then done else WithParts(v, done + PartTokens(v, parts[0]), parts[1..])
  }

  /** The tokens of a rendered chat. */
  function ChatTokens(v: Vocab, keys: seq<Key>, text: Text): seq<int>
    requires AllNonempty(keys)
  {
    WithParts(v, [], Parts(keys, text, 0, 0))
  }

  /** tokenize_span: nothing is emitted for an empty span. */
  method TokenizeSpan(v: Vocab, span: Text, out: TokenVec)
    modifies out
    ensures out.v == old(out.v) + TextTokens(v, span)
  {
    if span == [] { return; }
    BpeTokenizeText(v, span, out);
  }

  /** tokenize_rendered_chat_vocab */
  method TokenizeRenderedChat(v: Vocab, keys: seq<Key>, text: Text, out: TokenVec)
    requires |keys| == 7 && AllNonempty(keys)
    modifies out
    ensures out.v == WithParts(v, old(out.v), Parts(keys, text, 0, 0))
  {
    hide Parts, WithParts, FirstAt, TextTokens, AllNonempty;
    var span: nat, p: nat := 0, 0;
    while p < |text|
      invariant span <= p <= |text|
      invariant WithParts(v, out.v, Parts(keys, text, span, p)) == WithParts(v, old(out.v), Parts(keys, text, 0, 0))
      decreases |text| - p
    {
      var special := SpecialTokenAt(keys, text, p);
      PartsStep(keys, text, span, p);
      if special.Some? {
        var k := special.value;
        TakeTwo(v, out.v, text[span..p], k, Parts(keys, text, p + |keys[k]|, p + |keys[k]|));
        TokenizeSpan(v, text[span..p], out);
        out.Push(IdList(v)[k]);
        p := p + |keys[k]|;
        span := p;
        continue;
      }
      p := p + 1;
    }
    PartsStep(keys, text, span, p);
    TakeLast(v, out.v, text[span..p]);
    TokenizeSpan(v, text[span..p], out);
  }

  lemma PartsStep(keys: seq<Key>, text: Text, span: nat, p: nat)
    requires AllNonempty(keys) && span <= p <= |text|
    ensures p == |text| ==> Parts(keys, text, span, p) == [Plain(text[span..p])]
    ensures p < |text| ==> match FirstAt(keys, text, p, 0)
      case None => Parts(keys, text, span, p) == Parts(keys, text, span, p + 1)
      case Some(k) =>
        && |keys[k]| > 0 && p + |keys[k]| <= |text|
        && Parts(keys, text, span, p)
           == [Plain(text[span..p]), Special(k)] + Parts(keys, text, p + |keys[k]|, p + |keys[k]|)
  {
    hide FirstAt;
  }

  lemma TakeTwo(v: Vocab, done: seq<int>, plain: Text, k: nat, rest: seq<Part>)
    requires k < 7
    ensures WithParts(v, done, [Plain(plain), Special(k)] + rest)
         == WithParts(v, done + TextTokens(v, plain) + [IdList(v)[k]], rest)
  {
    var all := [Plain(plain), Special(k)] + rest;
    assert all[1..] == [Special(k)] + rest && all[1..][1..] == rest;
    hide TextTokens, IdList;
  }

  lemma TakeLast(v: Vocab, done: seq<int>, plain: Text)
    ensures WithParts(v, done, [Plain(plain)]) == done + TextTokens(v, plain)
  {
    assert [Plain(plain)][1..] == [];
    hide TextTokens, IdList;
  }

  // ---- detokenizing gives the text back ------------------------------------------------

  /** The text of a control token is its control text, stored literally or not. */
  lemma SpecialText(v: Vocab, t: Texts, k: nat)
    requires VocabOk(v, t) && ControlLike(t) && k < 7
    ensures TokenText(v, IdList(v)[k]) == TextList(t)[k]
  {
    var key := TextList(t)[k];
    assert Bound(v.tokenToId, key, IdList(v)[k]);
    assert v.token[IdList(v)[k]] == key;
    if k == 4 || k == 5 {
      ThinkTagsAreTagLike();
      TagText(key);
    }
  }

  /** A think tag is stored byte-encoded, which for printable ASCII is itself. */
  lemma TagText(key: Key)
    requires TagLike(key)
    ensures !HasBar(key) && Decode(key) == key
  {
    AsciiSelf(key);
    NoBarInEncoding(key);
    DecodeEncode(key);
  }

  function PartText(keys: seq<Key>, part: Part): Text {
    match part
    case Plain(s) => s
    case Special(k) => if k < |keys| then keys[k] else []
  }

  function PartsText(keys: seq<Key>, parts: seq<Part>): Text {
    if parts == [] then [] else PartText(keys, parts[0]) + PartsText(keys, parts[1..])
  }

  /** The scan loses nothing: the parts spell the text from span on. */
  lemma {:induction false} PartsCover(keys: seq<Key>, text: Text, span: nat, p: nat)
    requires AllNonempty(keys) && span <= p <= |text|
    ensures PartsText(keys, Parts(keys, text, span, p)) == text[span..]
    ensures forall i :: 0 <= i < |Parts(keys, text, span, p)| && Parts(keys, text, span, p)[i].Special? ==>
              Parts(keys, text, span, p)[i].k < |keys|
    decreases |text| - p
  {
    hide Parts, PartsText, FirstAt, AllNonempty;
    PartsStep(keys, text, span, p);
    if p == |text| {
      OnePart(keys, text[span..p]);
    } else {
      match FirstAt(keys, text, p, 0)
      case None => PartsCover(keys, text, span, p + 1);
      case Some(k) =>
        var next := p + |keys[k]|;
        var rest := Parts(keys, text, next, next);
        PartsCover(keys, text, next, next);
        TwoParts(keys, text[span..p], k, rest);
        assert text[p..next] == keys[k];
        assert text[span..] == text[span..p] + (text[p..next] + text[next..]);
    }
  }

  lemma OnePart(keys: seq<Key>, plain: Text)
    ensures PartsText(keys, [Plain(plain)]) == plain
  {
    assert [Plain(plain)][1..] == [];
  }

  lemma TwoParts(keys: seq<Key>, plain: Text, k: nat, rest: seq<Part>)
    requires k < |keys|
    ensures PartsText(keys, [Plain(plain), Special(k)] + rest) == plain + (keys[k] + PartsText(keys, rest))
  {
    var all := [Plain(plain), Special(k)] + rest;
    assert all[1..] == [Special(k)] + rest && all[1..][1..] == rest;
  }

  lemma PartRoundTrip(v: Vocab, t: Texts, part: Part)
    requires VocabOk(v, t) && ControlLike(t) && Complete(v)
    requires part.Special? ==> part.k < 7
    ensures TextOf(v, PartTokens(v, part)) == PartText(TextList(t), part)
  {
    match part
    case Plain(s) => TextRoundTrip(v, s);
    case Special(k) =>
      SpecialText(v, t, k);
      assert TextOf(v, [IdList(v)[k]]) == TokenText(v, IdList(v)[k]) + TextOf(v, []);
  }

  lemma {:induction false} WithPartsText(v: Vocab, keys: seq<Key>, done: seq<int>, parts: seq<Part>)
    requires forall i :: 0 <= i < |parts| ==> TextOf(v, PartTokens(v, parts[i])) == PartText(keys, parts[i])
    ensures TextOf(v, WithParts(v, done, parts)) == TextOf(v, done) + PartsText(keys, parts)
    decreases parts
  {
    if parts != [] {
      var toks := PartTokens(v, parts[0]);
      TextOfAppend(v, done, toks);
      WithPartsText(v, keys, done + toks, parts[1..]);
      Regroup(TextOf(v, done), TextOf(v, toks), PartsText(keys, parts[1..]), []);
    }
  }

  lemma ChatRoundTripFor(v: Vocab, t: Texts, text: Text)
    requires VocabOk(v, t) && ControlLike(t) && Complete(v) && AllNonempty(TextList(t))
    ensures TextOf(v, ChatTokens(v, TextList(t), text)) == text
  {
    var parts := Parts(TextList(t), text, 0, 0);
    PartsCover(TextList(t), text, 0, 0);
    forall i | 0 <= i < |parts|
      ensures TextOf(v, PartTokens(v, parts[i])) == PartText(TextList(t), parts[i])
    {
      PartRoundTrip(v, t, parts[i]);
    }
    WithPartsText(v, TextList(t), [], parts);
    assert text[0..] == text;
  }

  /** No control text is empty. */
  lemma ControlNonempty(t: Texts)
    requires ControlLike(t)
    ensures AllNonempty(TextList(t))
  {
    assert |THINK_START_TEXT| > 0 && |THINK_END_TEXT| > 0;
  }

  /**
   Tokenizing a rendered chat and concatenating the texts of the tokens gives back the chat,
   byte for byte, for every byte string and every closed vocabulary.
   */
  lemma ChatRoundTrip(v: Vocab, text: Text)
    requires VocabOk(v, CONTROL) && Complete(v)
    ensures AllNonempty(TextList(CONTROL)) && TextOf(v, ChatTokens(v, TextList(CONTROL), text)) == text
  {
    ControlIsControlLike();
    ControlNonempty(CONTROL);
    ChatRoundTripFor(v, CONTROL, text);
  }
}
