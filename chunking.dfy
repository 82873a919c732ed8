/** How the administrator's upload splits extracted text into chunks for embedding
    (components/AdminPanel.tsx): the text is split into words at runs of white space, and the
    words are packed greedily into chunks of about `TargetChunkSize` UTF-16 code units. */
module Chunking {
  import opened Strings

  const TargetChunkSize := 1000

  /** How much of the text the fallback chunk keeps. */
  const FallbackLength := 5000

  /** `currentLength` for a chunk holding `ws`: each word's `length` (in UTF-16 code units)
      plus one for its space. */
  function Cost(ws: seq<string>): nat {
    if ws == [] then 0 else Utf16Length(ws[0]) + 1 + Cost(ws[1..])
  }

  /** The packing loop closes the chunk `cur` before adding `w`. */
  predicate Overflows(cur: seq<string>, w: string) {
    Cost(cur) + Utf16Length(w) + 1 > TargetChunkSize && |cur| > 0
  }

  /** The word groups the packing loop produces when `cur` is the open chunk and `rest` the
      words still to read. */
  function GroupsFrom(cur: seq<string>, rest: seq<string>): seq<seq<string>>
    decreases |rest|
  {
    if rest == [] then (if cur == [] then [] else [cur])
    else if Overflows(cur, rest[0]) then [cur] + GroupsFrom([rest[0]], rest[1..])
    else GroupsFrom(cur + [rest[0]], rest[1..])
  }

  function Groups(words: seq<string>): seq<seq<string>> {
    GroupsFrom([], words)
  }

  /** Each group joined with single spaces. */
  function JoinEach(gs: seq<seq<string>>): (r: seq<string>)
    ensures |r| == |gs| && forall i :: 0 <= i < |gs| ==> r[i] == Join(gs[i], " ")
  {
    seq(|gs|, i requires 0 <= i < |gs| => Join(gs[i], " "))
  }

  /** The chunk texts the packing loop produces from `words`. */
  function Chunks(words: seq<string>): seq<string> {
    JoinEach(Groups(words))
  }

  /** The chunk texts for an extracted text: none for "", otherwise the packed words, and the
      first `FallbackLength` characters when packing yields nothing. */
  function TextChunks(text: string): seq<string> {
    var packed := if text == "" then [] else Chunks(Words(text));
    if |packed| == 0 && text != "" then [Prefix(text, FallbackLength)] else packed
  }

  /** The groups glued back together. */
  function Flatten(gs: seq<seq<string>>): seq<string> {
    if gs == [] then [] else gs[0] + Flatten(gs[1..])
  }

  /** The chunking step of the upload, as the component runs it. */
  method ChunkText(text: string) returns (chunks: seq<string>)
    ensures chunks == TextChunks(text)
  {
    chunks := [];
    if text != "" {
      var words := Words(text);
      var currentChunk: seq<string> := [];
      var currentLength := 0;
      for i := 0 to |words|
        invariant currentLength == Cost(currentChunk)
        invariant chunks + JoinEach(GroupsFrom(currentChunk, words[i..])) == Chunks(words)
      {
        var word := words[i];
        var wordLength := Utf16Length(word);
        if currentLength + wordLength + 1 > TargetChunkSize && |currentChunk| > 0 {
          CloseStep(chunks, currentChunk, words, i);
          chunks := chunks + [Join(currentChunk, " ")];
          currentChunk := [];
          currentLength := 0;
        } else {
          OpenStep(currentChunk, words, i);
        }
        CostAppend(currentChunk, word);
        currentChunk := currentChunk + [word];
        currentLength := currentLength + wordLength + 1;
      }
      assert words[|words|..] == [];
      if |currentChunk| > 0 {
        chunks := chunks + [Join(currentChunk, " ")];
      }
    }
    if |chunks| == 0 && text != "" {
      chunks := [Prefix(text, FallbackLength)];
    }
  }

  /** One step of the packing loop that closes the open chunk `cur` before `words[i]`. */
  lemma CloseStep(chunks: seq<string>, cur: seq<string>, words: seq<string>, i: nat)
    requires i < |words| && Overflows(cur, words[i])
    ensures chunks + JoinEach(GroupsFrom(cur, words[i..]))
      == (chunks + [Join(cur, " ")]) + JoinEach(GroupsFrom([] + [words[i]], words[i + 1..]))
  {
    assert words[i..][0] == words[i] && words[i..][1..] == words[i + 1..];
    var later := GroupsFrom([words[i]], words[i + 1..]);
    assert GroupsFrom(cur, words[i..]) == [cur] + later;
    assert JoinEach([cur] + later) == [Join(cur, " ")] + JoinEach(later);
    assert [] + [words[i]] == [words[i]];
  }

  /** One step of the packing loop that adds `words[i]` to the open chunk `cur`. */
  lemma OpenStep(cur: seq<string>, words: seq<string>, i: nat)
    requires i < |words| && !Overflows(cur, words[i])
    ensures GroupsFrom(cur, words[i..]) == GroupsFrom(cur + [words[i]], words[i + 1..])
  {
    assert words[i..][0] == words[i] && words[i..][1..] == words[i + 1..];
  }

  lemma {:induction false} CostAppend(ws: seq<string>, w: string)
    ensures Cost(ws + [w]) == Cost(ws) + Utf16Length(w) + 1
  {
    if ws == [] {
      assert ws + [w] == [w];
    } else {
      assert (ws + [w])[1..] == ws[1..] + [w];
      CostAppend(ws[1..], w);
    }
  }

  /** A chunk's length is its `currentLength` less the space counted after its last word. */
  lemma {:induction false} CostOfJoin(ws: seq<string>)
    requires |ws| >= 1
    ensures Utf16Length(Join(ws, " ")) + 1 == Cost(ws)
  {
    if |ws| > 1 {
      CostOfJoin(ws[1..]);
      assert Join(ws, " ") == ws[0] + (" " + Join(ws[1..], " "));
      Utf16LengthAppend(ws[0], " " + Join(ws[1..], " "));
      Utf16LengthAppend(" ", Join(ws[1..], " "));
    }
  }

  lemma {:induction false} FlattenAppend(a: seq<seq<string>>, b: seq<seq<string>>)
    ensures Flatten(a + b) == Flatten(a) + Flatten(b)
  {
    if a == [] {
      assert a + b == b;
    } else {
      assert (a + b)[1..] == a[1..] + b;
      FlattenAppend(a[1..], b);
    }
  }

  /** The groups are non-empty and partition the words in order. */
  lemma {:induction false} GroupsFromPartition(cur: seq<string>, rest: seq<string>)
    ensures Flatten(GroupsFrom(cur, rest)) == cur + rest
    ensures forall i :: 0 <= i < |GroupsFrom(cur, rest)| ==> GroupsFrom(cur, rest)[i] != []
    ensures cur != [] || rest != [] ==> |GroupsFrom(cur, rest)| >= 1
    decreases |rest|
  {
    var r := GroupsFrom(cur, rest);
    if rest == [] {
      if cur != [] {
        assert Flatten(r) == cur + Flatten([]);
      }
      assert cur + rest == cur;
    } else if Overflows(cur, rest[0]) {
      var tail := GroupsFrom([rest[0]], rest[1..]);
      GroupsFromPartition([rest[0]], rest[1..]);
      assert r[1..] == tail;
      assert [rest[0]] + rest[1..] == rest;
      forall i | 0 <= i < |r| ensures r[i] != [] {
        if i > 0 {
          assert r[i] == tail[i - 1];
        }
      }
    } else {
      GroupsFromPartition(cur + [rest[0]], rest[1..]);
      assert cur + [rest[0]] + rest[1..] == cur + rest;
    }
  }

  /** The open chunk `cur` begins the first group. */
  lemma {:induction false} GroupsFromStartWith(cur: seq<string>, rest: seq<string>)
    requires cur != []
    ensures |GroupsFrom(cur, rest)| >= 1
    ensures |cur| <= |GroupsFrom(cur, rest)[0]| && GroupsFrom(cur, rest)[0][..|cur|] == cur
    decreases |rest|
  {
    if rest != [] && !Overflows(cur, rest[0]) {
      GroupsFromStartWith(cur + [rest[0]], rest[1..]);
      var g := GroupsFrom(cur, rest)[0];
      assert g[..|cur|] == g[..|cur| + 1][..|cur|];
    }
  }

  /** A group of two or more words stays within the budget. */
  lemma {:induction false} GroupsFromWithinBudget(cur: seq<string>, rest: seq<string>)
    requires |cur| >= 2 ==> Cost(cur) <= TargetChunkSize
    ensures forall i :: 0 <= i < |GroupsFrom(cur, rest)| && |GroupsFrom(cur, rest)[i]| >= 2 ==>
      Cost(GroupsFrom(cur, rest)[i]) <= TargetChunkSize
    decreases |rest|
  {
    if rest != [] {
      if Overflows(cur, rest[0]) {
        var tail := GroupsFrom([rest[0]], rest[1..]);
        GroupsFromWithinBudget([rest[0]], rest[1..]);
        forall i | 0 <= i < |GroupsFrom(cur, rest)| && |GroupsFrom(cur, rest)[i]| >= 2
          ensures Cost(GroupsFrom(cur, rest)[i]) <= TargetChunkSize
        {
          if i > 0 {
            assert GroupsFrom(cur, rest)[i] == tail[i - 1];
          }
        }
      } else {
        CostAppend(cur, rest[0]);
        GroupsFromWithinBudget(cur + [rest[0]], rest[1..]);
      }
    }
  }

  /** The group `g` was closed because the first word of `next` would have overflowed it. */
  predicate ClosedOnOverflow(g: seq<string>, next: seq<string>) {
    next != [] && Cost(g) + Utf16Length(next[0]) + 1 > TargetChunkSize
  }

  /** A group is closed only when its next word would overflow it. */
  lemma {:induction false} GroupsFromMaximal(cur: seq<string>, rest: seq<string>)
    ensures forall i, j :: 0 <= i && j == i + 1 && j < |GroupsFrom(cur, rest)| ==>
      ClosedOnOverflow(GroupsFrom(cur, rest)[i], GroupsFrom(cur, rest)[j])
    decreases |rest|
  {
    if rest != [] {
      if Overflows(cur, rest[0]) {
        var r := GroupsFrom(cur, rest);
        var tail := GroupsFrom([rest[0]], rest[1..]);
        GroupsFromMaximal([rest[0]], rest[1..]);
        GroupsFromStartWith([rest[0]], rest[1..]);
        assert r[1..] == tail;
        forall i, j | 0 <= i && j == i + 1 && j < |r|
          ensures ClosedOnOverflow(r[i], r[j])
        {
          if i == 0 {
            assert r[1] == tail[0];
            assert tail[0][0] == tail[0][..1][0];
          } else {
            assert r[i] == tail[i - 1] && r[j] == tail[j - 1];
          }
        }
      } else {
        GroupsFromMaximal(cur + [rest[0]], rest[1..]);
      }
    }
  }

  /** Joining the groups' joins gives the join of all their words. */
  lemma {:induction false} JoinOfJoins(gs: seq<seq<string>>)
    requires |gs| >= 1
    requires forall i :: 0 <= i < |gs| ==> gs[i] != []
    ensures Join(JoinEach(gs), " ") == Join(Flatten(gs), " ")
  {
    if |gs| == 1 {
      assert Flatten(gs) == gs[0] + Flatten([]);
      assert gs[0] + [] == gs[0];
    } else {
      var rest := gs[1..];
      JoinOfJoins(rest);
      assert JoinEach(gs)[1..] == JoinEach(rest);
      assert Flatten(rest) == rest[0] + Flatten(rest[1..]);
      JoinAppend(gs[0], Flatten(rest), " ");
    }
  }

  /** Packing loses, adds and reorders no word: the chunks rejoined with spaces are the words
      rejoined with spaces. */
  lemma ChunksRejoin(words: seq<string>)
    requires |words| >= 1
    ensures |Chunks(words)| >= 1
    ensures Join(Chunks(words), " ") == Join(words, " ")
  {
    GroupsFromPartition([], words);
    assert [] + words == words;
    JoinOfJoins(Groups(words));
  }

  /** The fallback is never taken: a non-empty text always yields at least one packed chunk. */
  lemma FallbackNeverTaken(text: string)
    requires text != ""
    ensures |Chunks(Words(text))| >= 1
    ensures TextChunks(text) == Chunks(Words(text))
  {
    WordsKeepCharacters(text);
    GroupsFromPartition([], Words(text));
  }

  /** Chunking keeps every visible character of the text, in order. */
  lemma TextChunksKeepCharacters(text: string)
    requires text != ""
    ensures |TextChunks(text)| >= 1
    ensures NonWhitespace(Join(TextChunks(text), " ")) == NonWhitespace(text)
  {
    var words := Words(text);
    FallbackNeverTaken(text);
    WordsKeepCharacters(text);
    ChunksRejoin(words);
    WordsHaveNoWhitespace(text);
    forall i | 0 <= i < |words| ensures HasNoWhitespace(words[i]) {
      assert words[i] in words;
    }
    NonWhitespaceOfJoin(words, " ");
  }

  /** A chunk of `TargetChunkSize` code units or more is one word: every chunk of two or more
      words is shorter than the budget. */
  lemma ChunkSizeBound(words: seq<string>)
    ensures forall i :: 0 <= i < |Chunks(words)| && |Groups(words)[i]| >= 2 ==>
      Utf16Length(Chunks(words)[i]) < TargetChunkSize
  {
    GroupsFromWithinBudget([], words);
    forall i | 0 <= i < |Chunks(words)| && |Groups(words)[i]| >= 2
      ensures Utf16Length(Chunks(words)[i]) < TargetChunkSize
    {
      CostOfJoin(Groups(words)[i]);
    }
  }

  /** Chunk `i` was closed because the first word of chunk `i + 1`, with the spaces counted,
      would have taken it past the budget. */
  predicate ChunkWasFull(words: seq<string>, i: int) {
    && 0 <= i && i + 1 < |Groups(words)| && Groups(words)[i + 1] != []
    && Utf16Length(Chunks(words)[i]) + 1 + Utf16Length(Groups(words)[i + 1][0]) + 1 > TargetChunkSize
  }

  /** Chunks are as full as the greedy rule allows: every chunk but the last was full. */
  lemma ChunksAreMaximal(words: seq<string>)
    ensures forall i :: 0 <= i < |Chunks(words)| - 1 ==> ChunkWasFull(words, i)
  {
    GroupsFromMaximal([], words);
    GroupsFromPartition([], words);
    forall i | 0 <= i < |Chunks(words)| - 1 ensures ChunkWasFull(words, i) {
      assert ClosedOnOverflow(Groups(words)[i], Groups(words)[i + 1]);
      CostOfJoin(Groups(words)[i]);
    }
  }

  lemma {:induction false} FlattenMember(gs: seq<seq<string>>, i: nat, j: nat)
    requires i < |gs| && j < |gs[i]|
    ensures gs[i][j] in Flatten(gs)
  {
    if i == 0 {
      assert Flatten(gs) == gs[0] + Flatten(gs[1..]);
    } else {
      FlattenMember(gs[1..], i - 1, j);
    }
  }

  /** A blank text yields only blank chunks, and a text that is not blank yields at least one
      chunk that is not: so a document gets embedded records exactly when it has visible text. */
  lemma BlankTextBlankChunks(text: string)
    ensures IsBlank(text) <==> forall i :: 0 <= i < |TextChunks(text)| ==> IsBlank(TextChunks(text)[i])
  {
    if text != "" {
      var words := Words(text);
      var gs := Groups(words);
      FallbackNeverTaken(text);
      if IsBlank(text) {
        WordsKeepCharacters(text);
        NonWhitespaceEmptyIffBlank(text);
        ConcatEmpty(words);
        GroupsFromPartition([], words);
        assert [] + words == words;
        forall i | 0 <= i < |gs| ensures IsBlank(Join(gs[i], " ")) {
          forall j | 0 <= j < |gs[i]| ensures IsBlank(gs[i][j]) {
            FlattenMember(gs, i, j);
          }
          JoinBlank(gs[i], " ");
        }
      } else {
        TextChunksKeepCharacters(text);
        NonWhitespaceEmptyIffBlank(text);
        if forall i :: 0 <= i < |TextChunks(text)| ==> IsBlank(TextChunks(text)[i]) {
          JoinBlank(TextChunks(text), " ");
          NonWhitespaceEmptyIffBlank(Join(TextChunks(text), " "));
        }
      }
    }
  }
}
