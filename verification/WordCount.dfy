/** The word-frequency program built on the map: countWords and printDescending. */
module WordCount {
  import opened Wrappers
  import opened HashTable

  const MAX_WORD_LEN: nat := 128

  /** The characters that end a word: blank, newline, tab, NUL and [{(]}).,?!;+=^*|\/<>'"` */
  predicate IsDelimiter(c: byte) {
    c == 0x20 || c == 0x0A || c == 0x09 || c == 0x00 || c == 0x5B || c == 0x7B || c == 0x28 ||
    c == 0x5D || c == 0x7D || c == 0x29 || c == 0x2E || c == 0x2C || c == 0x3F || c == 0x21 ||
    c == 0x3B || c == 0x2B || c == 0x3D || c == 0x5E || c == 0x2A || c == 0x7C || c == 0x5C ||
    c == 0x2F || c == 0x3C || c == 0x3E || c == 0x27 || c == 0x22 || c == 0x60
  }

  /** ASCII punctuation. */
  predicate Punctuation(c: byte) {
    33 <= c <= 47 || 58 <= c <= 64 || 91 <= c <= 96 || 123 <= c <= 126
  }

  /** Words end at blanks, newlines, tabs, NULs and at all punctuation but nine characters. */
  lemma IsDelimiterIff(c: byte)
    ensures IsDelimiter(c) <==>
            c == 0 || c == 9 || c == 10 || c == 32 || (Punctuation(c) && (c as char) !in "#$%&-:@_~")
  {
  }

  // ------------------------------------------------------- what is counted

  /** Where the run of non-delimiters that ends just before position j starts. */
  function RunStart(input: seq<byte>, j: nat): (r: nat)
    requires j <= |input|
    ensures r <= j
  {
    if j == 0 || IsDelimiter(input[j - 1]) then j else RunStart(input, j - 1)
  }

  /** The run is free of delimiters and cannot be extended to the left; no other start is. */
  lemma {:induction false} RunStartIs(input: seq<byte>, j: nat, r: nat)
    requires r <= j <= |input|
    ensures RunStart(input, j) == r <==>
            (forall i | r <= i < j :: !IsDelimiter(input[i])) && (r == 0 || IsDelimiter(input[r - 1]))
  {
    if r < j && !IsDelimiter(input[j - 1]) {
      RunStartIs(input, j - 1, r);
    }
  }

  /** The word ended at position j, cut to the 127 characters the buffer can hold. */
  function WordBefore(input: seq<byte>, j: nat): (w: Key)
    requires j <= |input|
  {
    var run := input[RunStart(input, j)..j];
    if |run| < MAX_WORD_LEN then run else run[..MAX_WORD_LEN - 1]
  }

  /** Position j holds a delimiter that ends a word equal to the key. */
  ghost predicate Ends(input: seq<byte>, j: nat, key: Key) {
    j < |input| && IsDelimiter(input[j]) && RunStart(input, j) < j && WordBefore(input, j) == key
  }

  /** How many delimiter-terminated words of the first n characters equal the key. */
  ghost function Count(input: seq<byte>, n: nat, key: Key): nat
    requires n <= |input|
  {
    if n == 0 then 0 else Count(input, n - 1, key) + if Ends(input, n - 1, key) then 1 else 0
  }

  /** The map holds exactly the words seen, each with its count. */
  ghost predicate Tallies(m: map<Key, nat>, input: seq<byte>, n: nat)
    requires n <= |input|
  {
    forall key :: (key in m <==> Count(input, n, key) > 0) && (key in m ==> m[key] == Count(input, n, key))
  }

  /** A tally with one more occurrence of the key. */
  function OneMoreOf(m: map<Key, nat>, key: Key): map<Key, nat> {
    m[key := if key in m then m[key] + 1 else 1]
  }

  /** The tally after n characters, word by word. */
  ghost function Histogram(input: seq<byte>, n: nat): map<Key, nat>
    requires n <= |input|
  {
    if n == 0 then map[]
    else if IsDelimiter(input[n - 1]) && RunStart(input, n - 1) < n - 1
    then OneMoreOf(Histogram(input, n - 1), WordBefore(input, n - 1))
    else Histogram(input, n - 1)
  }

  lemma {:induction false} HistogramTallies(input: seq<byte>, n: nat)
    requires n <= |input|
    ensures Tallies(Histogram(input, n), input, n)
  {
    if n > 0 {
      HistogramTallies(input, n - 1);
    }
  }

  /** A delimited word counts under its full text, or under its first 127 characters if it is longer. */
  lemma DelimitedWordCounts(input: seq<byte>, r: nat, j: nat, key: Key)
    requires r < j < |input| && IsDelimiter(input[j]) && (r == 0 || IsDelimiter(input[r - 1]))
    requires forall i | r <= i < j :: !IsDelimiter(input[i])
    ensures var word := if j - r <= 127 then input[r..j] else input[r..r + 127];
            Count(input, j + 1, key) == Count(input, j, key) + if key == word then 1 else 0
  {
    hide IsDelimiter;
    RunStartIs(input, j, r);
    if j - r > 127 {
      assert input[r..j][..127] == input[r..r + 127];
    }
  }

  /** How the word in progress changes when one more character has been read. */
  lemma OneMore(input: seq<byte>, i: nat)
    requires i < |input|
    ensures IsDelimiter(input[i]) ==> RunStart(input, i + 1) == i + 1 && WordBefore(input, i + 1) == []
    ensures !IsDelimiter(input[i]) ==> RunStart(input, i + 1) == RunStart(input, i)
    ensures !IsDelimiter(input[i]) ==>
              WordBefore(input, i + 1)
              == WordBefore(input, i) + (if i - RunStart(input, i) < MAX_WORD_LEN - 1 then [input[i]] else [])
  {
    var r := RunStart(input, i);
    if !IsDelimiter(input[i]) {
      assert input[r..i + 1] == input[r..i] + [input[i]];
    }
  }

  lemma NoNulInWord(input: seq<byte>, i: nat)
    requires i <= |input|
    ensures forall j | 0 <= j < |WordBefore(input, i)| :: WordBefore(input, i)[j] != 0
  {
    var w, r := WordBefore(input, i), RunStart(input, i);
    RunStartIs(input, i, r);
    forall j | 0 <= j < |w| ensures w[j] != 0 {
      assert w[j] == input[r + j] && !IsDelimiter(input[r + j]);
    }
  }

  /** What a C string function sees of a buffer: the bytes before its first NUL. */
  function CString(buffer: seq<byte>): (s: Key)
    ensures |s| <= |buffer| && s == buffer[..|s|] && (|s| == |buffer| || buffer[|s|] == 0)
    ensures forall i | 0 <= i < |s| :: buffer[i] != 0
  {
    if buffer == [] || buffer[0] == 0 then [] else [buffer[0]] + CString(buffer[1..])
  }

  lemma CStringIs(buffer: seq<byte>, n: nat)
    requires n < |buffer| && buffer[n] == 0 && forall i | 0 <= i < n :: buffer[i] != 0
    ensures CString(buffer) == buffer[..n]
  {
    assert |CString(buffer)| == n;
  }

  // --------------------------------------------- all words of a text

  /** A word, of whatever length, ends before position j: at a delimiter or at the end of the input. */
  ghost predicate EndsWord(input: seq<byte>, j: nat, key: Key) {
    && j <= |input| && (j == |input| || IsDelimiter(input[j]))
    && RunStart(input, j) < j && input[RunStart(input, j)..j] == key
  }

  /** How many of the words that end before position n equal the key. */
  ghost function Words(input: seq<byte>, n: nat, key: Key): nat
    requires n <= |input| + 1
  {
    if n == 0 then 0 else Words(input, n - 1, key) + if EndsWord(input, n - 1, key) then 1 else 0
  }

  /** The last word is terminated. */
  predicate Terminated(input: seq<byte>) {
    input == [] || IsDelimiter(input[|input| - 1])
  }

  /** No word is longer than the buffer. */
  ghost predicate WordsFit(input: seq<byte>) {
    forall j: nat | j <= |input| :: j - RunStart(input, j) < MAX_WORD_LEN
  }

  /** While words fit, each delimiter ends the same word for the code and for the text. */
  lemma {:induction false} CountIsWords(input: seq<byte>, n: nat, key: Key)
    requires n <= |input| && WordsFit(input)
    ensures Words(input, n, key) == Count(input, n, key)
  {
    hide IsDelimiter, RunStart;
    if n > 0 {
      CountIsWords(input, n - 1, key);
    }
  }

  /** The code never counts anything under a key that fills the buffer. */
  lemma {:induction false} LongNotCounted(input: seq<byte>, n: nat, key: Key)
    requires n <= |input| && |key| >= MAX_WORD_LEN
    ensures Count(input, n, key) == 0
  {
    hide IsDelimiter, RunStart;
    if n > 0 {
      LongNotCounted(input, n - 1, key);
    }
  }

  lemma {:induction false} WordCounted(input: seq<byte>, n: nat, j: nat, key: Key)
    requires j < n <= |input| + 1 && EndsWord(input, j, key)
    ensures Words(input, n, key) > 0
  {
    hide EndsWord;
    if j < n - 1 {
      WordCounted(input, n - 1, j, key);
    }
  }

  /** A word in progress goes on to some end. */
  lemma {:induction false} WordGoesOn(input: seq<byte>, j: nat) returns (e: nat)
    requires j <= |input| && RunStart(input, j) < j
    ensures j <= e <= |input| && RunStart(input, e) == RunStart(input, j)
    ensures EndsWord(input, e, input[RunStart(input, e)..e])
    decreases |input| - j
  {
    hide IsDelimiter;
    if j == |input| || IsDelimiter(input[j]) {
      e := j;
    } else {
      e := WordGoesOn(input, j + 1);
    }
  }

  /** Every word of the text is counted, under its full text. */
  ghost predicate CountsWords(input: seq<byte>) {
    forall key :: Words(input, |input| + 1, key) == Count(input, |input|, key)
  }

  /** countWords counts the words of a text if and only if the last is terminated and all fit the buffer. */
  lemma CountsWordsIff(input: seq<byte>)
    ensures CountsWords(input) <==> Terminated(input) && WordsFit(input)
  {
    hide IsDelimiter, RunStart, Words, Count;
    if !WordsFit(input) {
      LongWordMissed(input);
    } else {
      forall key ensures Words(input, |input|, key) == Count(input, |input|, key) {
        CountIsWords(input, |input|, key);
      }
      LastWord(input);
    }
  }

  lemma LongWordMissed(input: seq<byte>)
    requires !WordsFit(input)
    ensures !CountsWords(input)
  {
    hide IsDelimiter, RunStart, Words, Count;
    var j: nat :| j <= |input| && j - RunStart(input, j) >= MAX_WORD_LEN;
    var e := WordGoesOn(input, j);
    var key := input[RunStart(input, e)..e];
    WordCounted(input, |input| + 1, e, key);
    LongNotCounted(input, |input|, key);
  }

  /** The end of the input ends a word exactly when no delimiter has. */
  lemma LastWord(input: seq<byte>)
    ensures Terminated(input) ==> forall key :: Words(input, |input| + 1, key) == Words(input, |input|, key)
    ensures !Terminated(input) ==> exists key :: Words(input, |input| + 1, key) == Words(input, |input|, key) + 1
  {
    hide IsDelimiter;
    var n := |input|;
    var key := input[RunStart(input, n)..n];
    if !Terminated(input) {
      assert RunStart(input, n) < n;
      assert EndsWord(input, n, key);
      assert Words(input, n + 1, key) == Words(input, n, key) + 1;
    }
  }

  /** The one word of the text "a" is not counted. */
  lemma UnterminatedWordMissed()
    ensures Words([0x61], 2, [0x61]) == 1 && forall key :: Count([0x61], 1, key) == 0
  {
    var input: seq<byte> := [0x61];
    assert RunStart(input, 0) == 0 && RunStart(input, 1) == 0;
    assert input[0..1] == input;
    assert EndsWord(input, 1, input) && !EndsWord(input, 0, input);
    assert Words(input, 1, input) == 0;
    forall key ensures Count(input, 1, key) == 0 {
      assert Count(input, 0, key) == 0;
    }
  }

  /** The map gives every word of the text its frequency. */
  ghost predicate TalliesWords(m: map<Key, nat>, input: seq<byte>) {
    forall key :: Words(input, |input| + 1, key) == if key in m then m[key] else 0
  }

  lemma TalliesWordsIff(m: map<Key, nat>, input: seq<byte>)
    requires Tallies(m, input, |input|)
    ensures TalliesWords(m, input) <==> Terminated(input) && WordsFit(input)
  {
    hide IsDelimiter, RunStart, Words, Count, Terminated, WordsFit;
    CountsWordsIff(input);
  }

  // ------------------------------------------------------------ countWords

  /** The local variables of countWords that assemble a word. */
  class Scanner {
    /** The 128-byte buffer. */
    var word: seq<byte>
    var pos: nat
    var wordLen: nat
    var inWord: bool

    /** The state after the first i characters of the input. */
    ghost predicate Read(input: seq<byte>, i: nat)
      reads this
    {
      && i <= |input|
      && (inWord <==> RunStart(input, i) < i)
      && (inWord ==> wordLen == i - RunStart(input, i))
      && pos < MAX_WORD_LEN == |word|
      && word[..pos] == WordBefore(input, i)
    }

    constructor ()
      ensures forall input :: Read(input, 0)
    {
      word := seq(MAX_WORD_LEN, _ => 0);
      pos := 0;
      wordLen := 0;
      inWord := false;
    }

    /** Reads the next character; the result is the word it ends, if any. */
    method Feed(c: byte, ghost input: seq<byte>, ghost i: nat) returns (ended: Option<Key>)
      requires Read(input, i) && i < |input| && input[i] == c
      modifies this
      ensures Read(input, i + 1)
      ensures ended.Some? <==> IsDelimiter(c) && RunStart(input, i) < i
      ensures ended.Some? ==> ended.value == WordBefore(input, i)
    {
      hide CString, HashOf;
      OneMore(input, i);
      ghost var w := word[..pos];
      ended := None;
      if IsDelimiter(c) {
        if inWord {
          inWord := false;
          word := word[pos := 0];
          NoNulInWord(input, i);
          assert word[..pos] == w;
          CStringIs(word, pos);
          ended := Some(CString(word));
          pos := 0;
        }
      } else if !inWord {
        inWord := true;
        word := word[pos := c];
        pos := pos + 1;
        assert word[..pos] == w + [c];
        wordLen := 1;
      } else {
        wordLen := wordLen + 1;
        if wordLen <= MAX_WORD_LEN - 1 {
          word := word[pos := c];
          pos := pos + 1;
          assert word[..pos] == w + [c];
        }
      }
    }
  }

  method CountWords(input: seq<byte>) returns (map0: Hashmap)
    ensures map0.Valid() && fresh(map0) && fresh(map0.data)
    ensures Tallies(Contents(map0.data[..]), input, |input|)
    ensures TalliesWords(Contents(map0.data[..]), input) <==> Terminated(input) && WordsFit(input)
  {
    hide Tallies, TalliesWords, Terminated, WordsFit, Count, RunStart, WordBefore, IsDelimiter,
         Hashmap.Consistent, Hashmap.Valid;
    map0 := new Hashmap(2, 0.5, 2.0);
    var scanner := new Scanner();
    for i := 0 to |input|
      invariant fresh(map0) && fresh(map0.data) && map0.Valid() && map0.loadFactor < 1.0
      invariant fresh(scanner) && scanner.Read(input, i)
      invariant Contents(map0.data[..]) == Histogram(input, i)
    {
      var key := scanner.Feed(input[i], input, i);
      if key.Some? {
        map0 := Increment(map0, key.value);
      }
    }
    HistogramTallies(input, |input|);
    TalliesWordsIff(Contents(map0.data[..]), input);
  }

  lemma PutBack(m: map<Key, nat>, key: Key, value: nat)
    ensures (m - {key})[key := value] == m[key := value]
  {
  }

  /** xremove followed by put of the same key: only the entry in the key's slot changes. */
  method Replace(map0: Hashmap, key: Key, value: nat)
    requires map0.Valid() && map0.loadFactor < 1.0 && Stored(map0.data[..], key)
    modifies map0, map0.data
    ensures map0.Valid() && map0.data == old(map0.data) && map0.size == old(map0.size)
    ensures exists s: nat :: old(Holds(map0.data[..], s, key)) &&
                             map0.data[..] == old(map0.data[..])[s := Some(Entry(key, value))]
    ensures Contents(map0.data[..]) == old(Contents(map0.data[..]))[key := value]
  {
    ghost var d := map0.data[..];
    ContentsIff(d, key);
    var e := map0.Xremove(key);
    ghost var s: nat :| Holds(d, s, key) && map0.data[..] == d[s := None];
    var m := Put(map0, key, value);
    PutBack(Contents(d), key, value);
    Refill(d, s, Entry(key, value), m.data[..]);
  }

  /** The map update at the end of a word: get, then remove and put back, or put. */
  method Increment(map0: Hashmap, key: Key) returns (m: Hashmap)
    requires map0.Valid() && map0.loadFactor < 1.0
    modifies map0, map0.data
    ensures m.Valid() && m.loadFactor == map0.loadFactor
    ensures (m == map0 || fresh(m)) && (m.data == old(map0.data) || fresh(m.data))
    ensures Contents(m.data[..]) == OneMoreOf(old(Contents(map0.data[..])), key)
    ensures key in old(Contents(map0.data[..])) ==> m == map0 && m.size == old(map0.size)
  {
    hide Contents, Filled, Distinct, HashOf;
    GetFindsStored(map0.data[..], key);
    ContentsIff(map0.data[..], key);
    var oldValue := map0.Get(key);
    if oldValue.Some? {
      Replace(map0, key, oldValue.value + 1);
      m := map0;
    } else {
      m := Put(map0, key, 1);
    }
  }

  // ------------------------------------------------------- printDescending

  ghost predicate Taken(d: Slots, j: nat) {
    j < |d| && d[j].Some?
  }

  /** Slot a is printed before slot b: the larger value first, the higher slot among equals. */
  ghost predicate Before(d: Slots, a: nat, b: nat)
    requires Taken(d, a) && Taken(d, b)
  {
    d[a].value.value > d[b].value.value || (d[a].value.value == d[b].value.value && a > b)
  }

  /** The listed slots are the best ones, best first; every other entry comes after them. */
  ghost predicate Ranked(d: Slots, order: seq<nat>) {
    && (forall i | 0 <= i < |order| :: Taken(d, order[i]))
    && (forall i, k | 0 <= i < k < |order| :: Before(d, order[i], order[k]))
    && (forall i, j: nat | 0 <= i < |order| && Taken(d, j) && j !in order :: Before(d, order[i], j))
  }

  /** The best entry among the first j slots that is not listed yet. */
  ghost predicate BestOf(d: Slots, order: seq<nat>, j: nat, best: nat) {
    && Taken(d, best) && best < j && best !in order
    && forall k: nat | k < j && Taken(d, k) && k !in order && k != best :: Before(d, best, k)
  }

  ghost function TakenSet(d: Slots): set<nat> {
    set j: nat | j < |d| && Taken(d, j)
  }

  lemma {:induction false} TakenCount(d: Slots)
    ensures |TakenSet(d)| == Filled(d)
  {
    if d == [] {
      assert TakenSet(d) == {};
    } else {
      var n := |d| - 1;
      var p := d[..n];
      TakenCount(p);
      assert TakenSet(d) == TakenSet(p) + if d[n].Some? then {n} else {};
    }
  }

  lemma {:induction false} DistinctCount(s: seq<nat>, all: set<nat>)
    requires forall i, k | 0 <= i < k < |s| :: s[i] != s[k]
    requires forall i | 0 <= i < |s| :: s[i] in all
    ensures |s| <= |all|
    ensures |s| == |all| ==> forall j | j in all :: j in s
  {
    if s != [] {
      var n := |s| - 1;
      DistinctCount(s[..n], all - {s[n]});
      assert forall j | j in all :: j == s[n] || j in all - {s[n]};
    }
  }

  /** A listing shorter than the map leaves an entry out; one as long leaves none. */
  lemma RankedCount(d: Slots, order: seq<nat>)
    requires Ranked(d, order)
    ensures |order| <= Filled(d)
    ensures |order| == Filled(d) <==> forall j: nat | Taken(d, j) :: j in order
  {
    TakenCount(d);
    DistinctCount(order, TakenSet(d));
    if forall j: nat | Taken(d, j) :: j in order {
      SeqToSet(order, TakenSet(d));
    }
  }

  lemma {:induction false} SeqToSet(s: seq<nat>, all: set<nat>)
    requires forall j | j in all :: j in s
    ensures |all| <= |s|
  {
    if s != [] {
      var n := |s| - 1;
      assert forall j | j in all - {s[n]} :: j in s[..n];
      SeqToSet(s[..n], all - {s[n]});
    } else {
      assert all == {};
    }
  }

  /** The lines are the entries of the map, each once, by value from the largest down. */
  ghost predicate Listing(lines: seq<(nat, Key)>, m: map<Key, nat>) {
    && (forall i | 0 <= i < |lines| :: lines[i].1 in m && m[lines[i].1] == lines[i].0)
    && (forall i, k | 0 <= i < k < |lines| :: lines[i].0 >= lines[k].0 && lines[i].1 != lines[k].1)
    && (forall key | key in m :: (m[key], key) in lines)
  }

  /** Listing all taken slots once, best first, lists the map. */
  lemma OrderLists(d: Slots, order: seq<nat>, lines: seq<(nat, Key)>)
    requires Distinct(d) && Ranked(d, order) && |lines| == |order|
    requires forall i | 0 <= i < |lines| :: lines[i] == (d[order[i]].value.value, d[order[i]].value.key)
    requires forall j: nat | Taken(d, j) :: j in order
    ensures Listing(lines, Contents(d))
  {
    hide Contents;
    forall i | 0 <= i < |lines| ensures lines[i].1 in Contents(d) && Contents(d)[lines[i].1] == lines[i].0 {
      ContentsIff(d, lines[i].1);
      assert Holds(d, order[i], lines[i].1);
    }
    forall key | key in Contents(d) ensures (Contents(d)[key], key) in lines {
      ContentsIff(d, key);
      var j: nat :| Holds(d, j, key);
      assert Taken(d, j) && j in order;
      var i: nat :| i < |order| && order[i] == j;
      assert lines[i] == (Contents(d)[key], key);
    }
  }

  /**
   * The lines printed, in order, with the slots they come from. A slot stands for the key pointer
   * in it, by which the code recognises an entry it has listed.
   */
  method PrintDescending(map0: Hashmap) returns (lines: seq<(nat, Key)>, keysDesc: seq<nat>)
    requires map0.Sized()
    ensures |lines| == |keysDesc| == map0.size && Ranked(map0.data[..], keysDesc)
    ensures forall i | 0 <= i < |lines| ::
              lines[i] == (map0.data[keysDesc[i]].value.value, map0.data[keysDesc[i]].value.key)
    ensures forall j: nat | Taken(map0.data[..], j) :: j in keysDesc
    ensures forall i, k | 0 <= i < k < |lines| ::
              lines[i].0 > lines[k].0 || (lines[i].0 == lines[k].0 && keysDesc[i] > keysDesc[k])
    ensures Distinct(map0.data[..]) ==> Listing(lines, Contents(map0.data[..]))
  {
    hide Contents, Listing, Distinct;
    ghost var d := map0.data[..];
    lines, keysDesc := [], [];
    for i := 0 to map0.size
      invariant |lines| == |keysDesc| == i && Ranked(d, keysDesc)
      invariant forall k | 0 <= k < i ::
                  Taken(d, keysDesc[k]) && lines[k] == (d[keysDesc[k]].value.value, d[keysDesc[k]].value.key)
    {
      var maxValue := 0;
      var chosen: Option<nat> := None;
      for j := 0 to map0.data.Length
        invariant chosen.None? ==> maxValue == 0 && forall k: nat | k < j && Taken(d, k) :: k in keysDesc
        invariant chosen.Some? ==> BestOf(d, keysDesc, j, chosen.value) && maxValue == d[chosen.value].value.value
      {
        if map0.data[j].Some? && map0.data[j].value.value >= maxValue && j !in keysDesc {
          chosen := Some(j);
          maxValue := map0.data[j].value.value;
        }
      }
      RankedCount(d, keysDesc);
      assert chosen.Some?;
      keysDesc := keysDesc + [chosen.value];
      lines := lines + [(maxValue, map0.data[chosen.value].value.key)];
    }
    RankedCount(d, keysDesc);
    if Distinct(d) {
      OrderLists(d, keysDesc, lines);
    }
  }
}
