/** `parseConfigList`, shared word for word by both instance classes: a raw
    field list is split on every non-word character, empty pieces are dropped,
    and each piece is trimmed. */
module FieldList {

  /** `\w` of a PCRE pattern without the /u flag: ASCII letters, digits and `_`. */
  predicate IsWordChar(c: char) {
    ('a' <= c <= 'z') || ('A' <= c <= 'Z') || ('0' <= c <= '9') || c == '_'
  }

  /** A non-empty run of word characters: the shape of every parsed field name. */
  predicate IsWord(s: string) {
    |s| > 0 && forall i :: 0 <= i < |s| ==> IsWordChar(s[i])
  }

  /** The piece collected so far, unless it is empty (PREG_SPLIT_NO_EMPTY). */
  function Flush(cur: string): seq<string> {
    if cur == [] then [] else [cur]
  }

  /** `preg_split('/\W/', ..., PREG_SPLIT_NO_EMPTY)` on `s`, continuing a piece `cur`. */
  function SplitFrom(cur: string, s: string): seq<string>
    decreases |s|
  {
    if s == [] then Flush(cur)
    else if IsWordChar(s[0]) then SplitFrom(cur + [s[0]], s[1..])
    else Flush(cur) + SplitFrom([], s[1..])
  }

  function Split(s: string): seq<string> {
    SplitFrom([], s)
  }

  /** The characters PHP's `trim` strips by default: " \t\n\r\0\x0B". */
  predicate IsTrimChar(c: char) {
    c == ' ' || c == '\t' || c == '\n' || c == '\r' || c as int == 0 || c as int == 11
  }

  function TrimLeft(s: string): string
    decreases |s|
  {
    if s != [] && IsTrimChar(s[0]) then TrimLeft(s[1..]) else s
  }

  function TrimRight(s: string): string
    decreases |s|
  {
    if s != [] && IsTrimChar(s[|s| - 1]) then TrimRight(s[..|s| - 1]) else s
  }

  /** PHP's `trim`. */
  function Trim(s: string): string {
    TrimRight(TrimLeft(s))
  }

  /** The list of field names in a raw setting: the pieces of `list`, each
      trimmed and appended in order. Trimming never changes a piece, and every
      name is a non-empty word. */
  method ParseConfigList(list: string) returns (listArray: seq<string>)
    ensures listArray == Split(list)
    ensures forall i :: 0 <= i < |listArray| ==> IsWord(listArray[i])
  {
    var lists := Split(list);
    SplitWords(list);
    listArray := [];
    for i := 0 to |lists|
      invariant listArray == lists[..i]
    {
      TrimKeepsWord(lists[i]);
      listArray := listArray + [Trim(lists[i])];
    }
  }

  lemma TrimKeepsWord(w: string)
    requires IsWord(w)
    ensures Trim(w) == w
  {
    assert !IsTrimChar(w[0]);
    assert !IsTrimChar(w[|w| - 1]);
  }

  // ---------------------------------------------------------------------------
  // What the split keeps: only words, in input order, and every word character.

  lemma {:induction false} SplitFromWords(cur: string, s: string)
    requires cur == [] || IsWord(cur)
    ensures forall i :: 0 <= i < |SplitFrom(cur, s)| ==> IsWord(SplitFrom(cur, s)[i])
    decreases |s|
  {
    if s == [] {
    } else if IsWordChar(s[0]) {
      SplitFromWords(cur + [s[0]], s[1..]);
    } else {
      SplitFromWords([], s[1..]);
    }
  }

  /** Every parsed name is a non-empty run of word characters. */
  lemma SplitWords(s: string)
    ensures forall i :: 0 <= i < |Split(s)| ==> IsWord(Split(s)[i])
  {
    SplitFromWords([], s);
  }

  /** The word characters of a string, in order. */
  function WordChars(s: string): string {
    if s == [] then []
    else (if IsWordChar(s[0]) then [s[0]] else []) + WordChars(s[1..])
  }

  function Concat(ts: seq<string>): string {
    if ts == [] then [] else ts[0] + Concat(ts[1..])
  }

  lemma FlushConcat(cur: string, ts: seq<string>)
    ensures Concat(Flush(cur) + ts) == cur + Concat(ts)
  {
    if cur != [] {
      assert (Flush(cur) + ts)[1..] == ts;
    } else {
      assert Flush(cur) + ts == ts;
    }
  }

  lemma {:induction false} SplitFromConcat(cur: string, s: string)
    ensures Concat(SplitFrom(cur, s)) == cur + WordChars(s)
    decreases |s|
  {
    if s == [] {
      FlushConcat(cur, []);
    } else if IsWordChar(s[0]) {
      SplitFromConcat(cur + [s[0]], s[1..]);
      assert cur + [s[0]] + WordChars(s[1..]) == cur + WordChars(s);
    } else {
      SplitFromConcat([], s[1..]);
      FlushConcat(cur, SplitFrom([], s[1..]));
    }
  }

  /** The names, glued back together, are exactly the word characters of the
      input in their original order: nothing is reordered, dropped or invented. */
  lemma SplitKeepsOrder(s: string)
    ensures Concat(Split(s)) == WordChars(s)
  {
    SplitFromConcat([], s);
  }

  /** No name at all exactly when the input holds no word character. */
  lemma SplitEmpty(s: string)
    ensures Split(s) == [] <==> WordChars(s) == []
  {
    SplitKeepsOrder(s);
    SplitWords(s);
    if Split(s) != [] {
      assert |Split(s)[0]| > 0;
      assert Concat(Split(s)) == Split(s)[0] + Concat(Split(s)[1..]);
    }
  }

  // ---------------------------------------------------------------------------
  // Re-parsing the parsed list written out with single spaces gives it back.

  /** `implode(' ', ts)`. */
  function Join(ts: seq<string>): string {
    if ts == [] then ""
    else if |ts| == 1 then ts[0]
    else ts[0] + " " + Join(ts[1..])
  }

  lemma {:induction false} SplitFromWordPrefix(cur: string, w: string, rest: string)
    requires forall i :: 0 <= i < |w| ==> IsWordChar(w[i])
    ensures SplitFrom(cur, w + rest) == SplitFrom(cur + w, rest)
    decreases |w|
  {
    if w != [] {
      assert (w + rest)[0] == w[0];
      assert (w + rest)[1..] == w[1..] + rest;
      SplitFromWordPrefix(cur + [w[0]], w[1..], rest);
      assert cur + [w[0]] + w[1..] == cur + w;
    } else {
      assert w + rest == rest;
      assert cur + w == cur;
    }
  }

  /** Splitting words written out with single spaces gives the words back. */
  lemma {:induction false} SplitJoin(ts: seq<string>)
    requires forall i :: 0 <= i < |ts| ==> IsWord(ts[i])
    ensures Split(Join(ts)) == ts
  {
    if ts == [] {
    } else if |ts| == 1 {
      SplitFromWordPrefix([], ts[0], "");
      assert ts[0] + "" == ts[0];
      assert [] + ts[0] == ts[0];
    } else {
      var t, j := ts[0], Join(ts[1..]);
      SplitFromWordPrefix([], t, " " + j);
      assert t + " " + j == t + (" " + j);
      assert (" " + j)[1..] == j;
      assert [] + t == t;
      assert !IsWordChar((" " + j)[0]);
      assert SplitFrom(t, " " + j) == [t] + SplitFrom([], j);
      SplitJoin(ts[1..]);
      assert ts == [t] + ts[1..];
    }
  }

  /** Parsing is idempotent: the parsed list, joined by spaces and parsed
      again, is the same list. */
  lemma ReparseJoined(s: string)
    ensures Split(Join(Split(s))) == Split(s)
  {
    SplitWords(s);
    SplitJoin(Split(s));
  }
}
