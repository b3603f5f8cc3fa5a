/**
 The vocabulary of src/tokenizer/ds4_tokenizer.c: token strings and merge ranks from the model
 file go into two string tables, and the control tokens are looked up by their texts.
 */
module Vocabulary {
  import opened ByteEncoding
  import opened StrTable

  const INT32_MAX := 0x7fff_ffff
  const SPACE: byte := 32

  // ---- control token texts -----------------------------------------------------

  const BAR: seq<byte> := [0xef, 0xbd, 0x9c]                  // U+FF5C
  const LOW: seq<byte> := [0xe2, 0x96, 0x81]                  // U+2581
  const BEGIN: seq<byte> := [98, 101, 103, 105, 110]          // begin
  const END: seq<byte> := [101, 110, 100]                     // end
  const OF: seq<byte> := [111, 102]                           // of
  const SENTENCE: seq<byte> := [115, 101, 110, 116, 101, 110, 99, 101]
  const USER: seq<byte> := [85, 115, 101, 114]
  const ASSISTANT: seq<byte> := [65, 115, 115, 105, 115, 116, 97, 110, 116]
  const DSML: seq<byte> := [68, 83, 77, 76]

  const THINK_START_TEXT: seq<byte> := [60, 116, 104, 105, 110, 107, 62]
  const THINK_END_TEXT: seq<byte> := [60, 47, 116, 104, 105, 110, 107, 62]

  /** The texts of the seven control tokens. */
  datatype Texts = Texts(bos: Key, eos: Key, user: Key, assistant: Key, thinkStart: Key, thinkEnd: Key, dsml: Key)

  const CONTROL := Texts(
    [60] + BAR + BEGIN + LOW + OF + LOW + SENTENCE + BAR + [62],
    [60] + BAR + END + LOW + OF + LOW + SENTENCE + BAR + [62],
    [60] + BAR + USER + BAR + [62],
    [60] + BAR + ASSISTANT + BAR + [62],
    THINK_START_TEXT,
    THINK_END_TEXT,
    BAR + DSML + BAR)

  /** s contains the bytes of U+FF5C. */
  ghost predicate HasBar(s: Key) {
    exists i :: 0 <= i <= |s| - 3 && s[i] == 0xef && s[i + 1] == 0xbd && s[i + 2] == 0x9c
  }

  /** What matters about the control texts: five contain the bar, and the other two are the think tags. */
  ghost predicate ControlLike(t: Texts) {
    && HasBar(t.bos) && HasBar(t.eos) && HasBar(t.user) && HasBar(t.assistant) && HasBar(t.dsml)
    && t.thinkStart == THINK_START_TEXT && t.thinkEnd == THINK_END_TEXT
  }

  lemma ControlIsControlLike()
    ensures ControlLike(CONTROL)
  {
    assert CONTROL.bos[1] == 0xef && CONTROL.bos[2] == 0xbd && CONTROL.bos[3] == 0x9c;
    assert CONTROL.eos[1] == 0xef && CONTROL.eos[2] == 0xbd && CONTROL.eos[3] == 0x9c;
    assert CONTROL.user[1] == 0xef && CONTROL.user[2] == 0xbd && CONTROL.user[3] == 0x9c;
    assert CONTROL.assistant[1] == 0xef && CONTROL.assistant[2] == 0xbd && CONTROL.assistant[3] == 0x9c;
    assert CONTROL.dsml[0] == 0xef && CONTROL.dsml[1] == 0xbd && CONTROL.dsml[2] == 0x9c;
  }

  function TextList(t: Texts): seq<Key> {
    [t.bos, t.eos, t.user, t.assistant, t.thinkStart, t.thinkEnd, t.dsml]
  }

  // ---- vocabulary ------------------------------------------------------------------

  datatype Vocab = Vocab(
    token: seq<Key>,
    tokenToId: map<Key, int>,
    mergeRank: map<Key, int>,
    bos: int, eos: int, user: int, assistant: int, thinkStart: int, thinkEnd: int, dsml: int)

  ghost predicate Bound(m: map<Key, int>, k: Key, id: int) {
    k in m && m[k] == id
  }

  /** The seven control ids are the ids of the seven control texts. */
  ghost predicate SpecialsOk(v: Vocab, t: Texts) {
    && Bound(v.tokenToId, t.bos, v.bos) && Bound(v.tokenToId, t.eos, v.eos)
    && Bound(v.tokenToId, t.user, v.user) && Bound(v.tokenToId, t.assistant, v.assistant)
    && Bound(v.tokenToId, t.thinkStart, v.thinkStart) && Bound(v.tokenToId, t.thinkEnd, v.thinkEnd)
    && Bound(v.tokenToId, t.dsml, v.dsml)
  }

  ghost predicate SpecialsPresent(m: map<Key, int>, t: Texts) {
    && t.bos in m && t.eos in m && t.user in m && t.assistant in m
    && t.thinkStart in m && t.thinkEnd in m && t.dsml in m
  }

  /** Every id in the lookup table is the position of its own text. */
  ghost predicate IdsOk(v: Vocab) {
    forall k :: k in v.tokenToId ==> 0 <= v.tokenToId[k] < |v.token| && v.token[v.tokenToId[k]] == k
  }

  /** What loading establishes. */
  ghost predicate VocabOk(v: Vocab, t: Texts) {
    IdsOk(v) && SpecialsOk(v, t)
  }

  function ToInt32(i: int): int {
    var m := i % 0x1_0000_0000;
    if m > INT32_MAX then m - 0x1_0000_0000 else m
  }

  /** The table that inserting keys in order leaves: each key bound to its last position. */
  function IndexOf(keys: seq<Key>): map<Key, int> {
    if keys == [] then map[]
    else IndexOf(keys[..|keys| - 1])[keys[|keys| - 1] := ToInt32(|keys| - 1)]
  }

  lemma {:induction false} IndexOfLast(keys: seq<Key>, k: Key)
    requires |keys| <= INT32_MAX
    ensures k in IndexOf(keys) <==> k in keys
    ensures k in keys ==>
              && 0 <= IndexOf(keys)[k] < |keys| && keys[IndexOf(keys)[k]] == k
              && forall j :: IndexOf(keys)[k] < j < |keys| ==> keys[j] != k
  {
    if keys != [] {
      var rest, last := keys[..|keys| - 1], keys[|keys| - 1];
      assert keys == rest + [last];
      assert ToInt32(|rest|) == |rest|;
      IndexOfLast(rest, k);
    }
  }

  lemma {:induction false} IndexOfSize(keys: seq<Key>)
    ensures |IndexOf(keys)| <= |keys|
  {
    if keys != [] {
      var rest, last := keys[..|keys| - 1], keys[|keys| - 1];
      IndexOfSize(rest);
      assert IndexOf(keys).Keys == IndexOf(rest).Keys + {last};
    }
  }

  class VocabTables {
    var token: seq<Key>
    var tokenToId: StrI32Table
    var mergeRank: StrI32Table
    var bos: int
    var eos: int
    var user: int
    var assistant: int
    var thinkStart: int
    var thinkEnd: int
    var dsml: int

    ghost predicate Valid()
      reads this, tokenToId, tokenToId.entry, mergeRank, mergeRank.entry
    {
      tokenToId.Valid() && mergeRank.Valid()
    }

    ghost function V(): Vocab
      reads this, tokenToId, mergeRank
    {
      Vocab(token, tokenToId.contents, mergeRank.contents, bos, eos, user, assistant, thinkStart, thinkEnd, dsml)
    }

    /** ids are the ids of the control tokens in the order of TextList. */
    constructor (token: seq<Key>, tokenToId: StrI32Table, mergeRank: StrI32Table, ids: seq<int>)
      requires |ids| == 7
      ensures V() == Vocab(token, tokenToId.contents, mergeRank.contents,
                           ids[0], ids[1], ids[2], ids[3], ids[4], ids[5], ids[6])
      ensures this.tokenToId == tokenToId && this.mergeRank == mergeRank
    {
      this.token, this.tokenToId, this.mergeRank := token, tokenToId, mergeRank;
      bos, eos, user, assistant := ids[0], ids[1], ids[2], ids[3];
      thinkStart, thinkEnd, dsml := ids[4], ids[5], ids[6];
    }
  }

  /** vocab_lookup of several required texts; ok is false where the source exits. */
  method LookUpAll(table: StrI32Table, texts: seq<Key>) returns (ok: bool, ids: seq<int>)
    requires table.Valid()
    ensures |ids| == |texts|
    ensures ok <==> forall j :: 0 <= j < |texts| ==> texts[j] in table.contents
    ensures ok ==> forall j :: 0 <= j < |texts| ==> Bound(table.contents, texts[j], ids[j])
  {
    ids := [];
    ok := true;
    for i := 0 to |texts|
      invariant |ids| == i
      invariant ok <==> forall j :: 0 <= j < i ==> texts[j] in table.contents
      invariant ok ==> forall j :: 0 <= j < i ==> Bound(table.contents, texts[j], ids[j])
    {
      var found := table.Get(texts[i]);
      ok := ok && found.Some?;
      ids := ids + [if found.Some? then found.value else -1];
    }
  }

  method FillTable(hash: Key -> nat, keys: seq<Key>) returns (t: StrI32Table)
    ensures fresh(t) && fresh(t.entry) && t.Valid() && t.contents == IndexOf(keys)
  {
    t := new StrI32Table(hash, |keys|);
    for i := 0 to |keys|
      invariant fresh(t) && fresh(t.entry) && t.Valid() && t.expected == |keys|
      invariant t.contents == IndexOf(keys[..i])
    {
      assert keys[..i + 1][..i] == keys[..i];
      IndexOfSize(keys[..i]);
      t.Put(keys[i], ToInt32(i));
    }
    assert keys[..|keys|] == keys;
  }

  /** vocab_load from the token and merge lists of the model file; false where the source dies. */
  method VocabLoad(hash: Key -> nat, tokens: seq<Key>, merges: seq<Key>, t: Texts)
    returns (ok: bool, vocab: VocabTables)
    ensures fresh(vocab) && vocab.Valid()
    ensures ok <==> |tokens| <= INT32_MAX && SpecialsPresent(IndexOf(tokens), t)
    ensures ok ==> VocabOk(vocab.V(), t)
    ensures ok ==> vocab.token == tokens && vocab.tokenToId.contents == IndexOf(tokens)
    ensures ok ==> vocab.mergeRank.contents == IndexOf(merges)
  {
    var ids := FillTable(hash, tokens);
    var ranks := FillTable(hash, merges);
    var found, control := LookUpAll(ids, TextList(t));
    vocab := new VocabTables(tokens, ids, ranks, control);
    ok := |tokens| <= INT32_MAX && found;
    assert found <==> SpecialsPresent(IndexOf(tokens), t) by { ListPresent(IndexOf(tokens), t); }
    if ok { LoadedOk(tokens, IndexOf(merges), control, t); }
  }

  lemma ListPresent(m: map<Key, int>, t: Texts)
    ensures SpecialsPresent(m, t) <==> forall j :: 0 <= j < |TextList(t)| ==> TextList(t)[j] in m
  {
    var l := TextList(t);
    assert l[0] == t.bos && l[1] == t.eos && l[2] == t.user && l[3] == t.assistant;
    assert l[4] == t.thinkStart && l[5] == t.thinkEnd && l[6] == t.dsml;
  }

  lemma LoadedOk(tokens: seq<Key>, ranks: map<Key, int>, ids: seq<int>, t: Texts)
    requires |tokens| <= INT32_MAX && |ids| == 7
    requires forall j :: 0 <= j < 7 ==> Bound(IndexOf(tokens), TextList(t)[j], ids[j])
    ensures VocabOk(Vocab(tokens, IndexOf(tokens), ranks, ids[0], ids[1], ids[2], ids[3], ids[4], ids[5], ids[6]), t)
  {
    var l := TextList(t);
    assert Bound(IndexOf(tokens), l[0], ids[0]) && Bound(IndexOf(tokens), l[1], ids[1]);
    assert Bound(IndexOf(tokens), l[2], ids[2]) && Bound(IndexOf(tokens), l[3], ids[3]);
    assert Bound(IndexOf(tokens), l[4], ids[4]) && Bound(IndexOf(tokens), l[5], ids[5]);
    assert Bound(IndexOf(tokens), l[6], ids[6]);
    forall k | k in IndexOf(tokens)
      ensures 0 <= IndexOf(tokens)[k] < |tokens| && tokens[IndexOf(tokens)[k]] == k
    {
      IndexOfLast(tokens, k);
    }
  }
}
