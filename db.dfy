/** The local database (services/db.ts): the users, files and chunks tables, the admin seed,
    and brute-force similarity search over the stored chunk embeddings. */
module Db {
  import opened Outcomes
  import opened Types
  import opened Seqs

  const AdminEmail := "admin@test.com"

  /** The number of results `findSimilarChunks` returns when the caller passes no limit. */
  const DefaultLimit := 4

  /** The similarity of a query vector to a stored embedding. The application uses cosine
      similarity, whose floating-point division and square roots stay abstract here. */
  type Similarity = (seq<real>, seq<real>) -> real

  /** A stored chunk together with its similarity to the query (`{ ...chunk, score }`). */
  datatype ScoredChunk = ScoredChunk(chunk: DocumentChunk, score: real)

  function UserKey(u: User): int { u.id }
  function FileKey(f: DocumentFile): int { f.id }
  function ChunkKey(c: DocumentChunk): int { c.id }

  /** A table in primary-key order: keys increase along the rows, and every key was
      generated, counting from 1, before the next key `next`. */
  ghost predicate KeyedBelow<T>(rows: seq<T>, key: T -> int, next: nat) {
    && 1 <= next
    && IncreasingBy(rows, key)
    && forall i :: 0 <= i < |rows| ==> 1 <= key(rows[i]) < next
  }

  /** A row stored under the next key keeps the table in key order. */
  lemma AppendKeyed<T>(rows: seq<T>, key: T -> int, next: nat, x: T)
    requires KeyedBelow(rows, key, next)
    requires key(x) == next
    ensures KeyedBelow(rows + [x], key, next + 1)
  {
  }

  /** No two users share an email address. */
  ghost predicate UniqueEmails(users: seq<User>) {
    forall i, j :: 0 <= i < j < |users| ==> users[i].email != users[j].email
  }

  /** `users.where('email').equals(email).first()`: the user with that email and the smallest key. */
  function FirstWithEmail(users: seq<User>, email: string): (r: Option<User>)
    ensures r.None? <==> forall i :: 0 <= i < |users| ==> users[i].email != email
    ensures r.Some? ==> r.value in users && r.value.email == email
    ensures r.Some? ==> exists k :: 0 <= k < |users| && users[k] == r.value
                                    && forall i :: 0 <= i < k ==> users[i].email != email
  {
    if users == [] then None
    else if users[0].email == email then Some(users[0])
    else
      var r := FirstWithEmail(users[1..], email);
      assert r.Some? ==> forall i :: 0 <= i < |users[1..]| && users[1..][i] == r.value ==> users[i + 1] == r.value;
      r
  }

  /** With unique emails, the user `first()` finds is the one user with that email. */
  lemma FirstWithEmailUnique(users: seq<User>, email: string, k: nat)
    requires UniqueEmails(users)
    requires k < |users| && users[k].email == email
    ensures FirstWithEmail(users, email) == Some(users[k])
  {
    var r := FirstWithEmail(users, email);
    var k' :| 0 <= k' < |users| && users[k'] == r.value && forall i :: 0 <= i < k' ==> users[i].email != email;
    assert k' == k;
  }

  /** `users.get(id)`: the user stored under key `id`, if any. */
  function UserWithId(users: seq<User>, id: nat): (r: Option<User>)
    ensures r.None? <==> forall i :: 0 <= i < |users| ==> users[i].id != id
    ensures r.Some? ==> r.value.id == id && exists k :: 0 <= k < |users| && users[k] == r.value
  {
    if users == [] then None
    else if users[0].id == id then Some(users[0])
    else
      var r := UserWithId(users[1..], id);
      assert r.Some? ==> forall i :: 0 <= i < |users[1..]| && users[1..][i] == r.value ==> users[i + 1] == r.value;
      r
  }

  /** The fields `files.update(id, changes)` sets in this application. */
  datatype FileChange = SetContent(text: string) | SetProcessed(done: bool)

  function Apply(f: DocumentFile, change: FileChange): DocumentFile {
    match change
    case SetContent(text) => f.(content := Some(text))
    case SetProcessed(done) => f.(processed := done)
  }

  /** `files.update(id, change)`: the record with key `id`, if any, changed; the others as they were. */
  function UpdateFile(files: seq<DocumentFile>, id: nat, change: FileChange): (r: seq<DocumentFile>)
    ensures |r| == |files|
    ensures forall i :: 0 <= i < |r| ==> r[i] == if files[i].id == id then Apply(files[i], change) else files[i]
  {
    seq(|files|, i requires 0 <= i < |files| => if files[i].id == id then Apply(files[i], change) else files[i])
  }

  /** `files.where('id').anyOf(ids).toArray()`: the files whose key is one of `ids`, in key order. */
  function FilesWithIds(files: seq<DocumentFile>, ids: seq<nat>): (r: seq<DocumentFile>) {
    Filter(files, (f: DocumentFile) => f.id in ids)
  }

  /** The chunks that survive `chunks.where('documentId').equals(docId).delete()`. */
  function ChunksNotOf(chunks: seq<DocumentChunk>, docId: nat): seq<DocumentChunk> {
    Filter(chunks, (c: DocumentChunk) => c.documentId != docId)
  }

  /** The files that survive `files.delete(id)`. */
  function FilesWithout(files: seq<DocumentFile>, id: nat): seq<DocumentFile> {
    Filter(files, (f: DocumentFile) => f.id != id)
  }

  /** The IndexedDB database with auto-incremented (`++id`) keys that are never reused. */
  class Database {
    var users: seq<User>
    var files: seq<DocumentFile>
    var chunks: seq<DocumentChunk>
    var nextUserId: nat
    var nextFileId: nat
    var nextChunkId: nat

    ghost predicate Valid()
      reads this
    {
      && KeyedBelow(users, UserKey, nextUserId)
      && KeyedBelow(files, FileKey, nextFileId)
      && KeyedBelow(chunks, ChunkKey, nextChunkId)
    }

    constructor ()
      ensures Valid()
      ensures users == [] && files == [] && chunks == []
      ensures nextUserId == 1 && nextFileId == 1 && nextChunkId == 1
    {
      users, files, chunks := [], [], [];
      nextUserId, nextFileId, nextChunkId := 1, 1, 1;
    }

    /** `users.add(u)`: stores `u` under a fresh key and returns that key. */
    method AddUser(u: User) returns (id: nat)
      requires Valid()
      modifies this`users, this`nextUserId
      ensures Valid()
      ensures id == old(nextUserId) && nextUserId == id + 1
      ensures users == old(users) + [u.(id := id)]
    {
      id := nextUserId;
      AppendKeyed(users, UserKey, nextUserId, u.(id := id));
      users := users + [u.(id := id)];
      nextUserId := nextUserId + 1;
    }

    /** `files.add(f)`: stores `f` under a fresh key and returns that key. */
    method AddFile(f: DocumentFile) returns (id: nat)
      requires Valid()
      modifies this`files, this`nextFileId
      ensures Valid()
      ensures id == old(nextFileId) && nextFileId == id + 1
      ensures files == old(files) + [f.(id := id)]
    {
      id := nextFileId;
      AppendKeyed(files, FileKey, nextFileId, f.(id := id));
      files := files + [f.(id := id)];
      nextFileId := nextFileId + 1;
    }

    /** `chunks.add(c)`: stores `c` under a fresh key and returns that key. */
    method AddChunk(c: DocumentChunk) returns (id: nat)
      requires Valid()
      modifies this`chunks, this`nextChunkId
      ensures Valid()
      ensures id == old(nextChunkId) && nextChunkId == id + 1
      ensures chunks == old(chunks) + [c.(id := id)]
    {
      id := nextChunkId;
      AppendKeyed(chunks, ChunkKey, nextChunkId, c.(id := id));
      chunks := chunks + [c.(id := id)];
      nextChunkId := nextChunkId + 1;
    }

    /** `files.update(id, change)`. */
    method ChangeFile(id: nat, change: FileChange)
      requires Valid()
      modifies this`files
      ensures Valid()
      ensures files == UpdateFile(old(files), id, change)
    {
      files := UpdateFile(files, id, change);
    }

    /** `files.delete(id)`. */
    method DeleteFile(id: nat)
      requires Valid()
      modifies this`files
      ensures Valid()
      ensures files == FilesWithout(old(files), id)
    {
      FilterIncreasing(files, (f: DocumentFile) => f.id != id, FileKey);
      files := FilesWithout(files, id);
    }

    /** `chunks.where('documentId').equals(docId).delete()`. */
    method DeleteChunksOf(docId: nat)
      requires Valid()
      modifies this`chunks
      ensures Valid()
      ensures chunks == ChunksNotOf(old(chunks), docId)
    {
      FilterIncreasing(chunks, (c: DocumentChunk) => c.documentId != docId, ChunkKey);
      chunks := ChunksNotOf(chunks, docId);
    }

    /** `seedAdmin`: adds the demo administrator unless a user with its email exists. */
    method SeedAdmin(now: int)
      requires Valid()
      modifies this`users, this`nextUserId
      ensures Valid()
      ensures old(FirstWithEmail(users, AdminEmail)).Some? ==> users == old(users) && nextUserId == old(nextUserId)
      ensures old(FirstWithEmail(users, AdminEmail)).None? ==>
        && users == old(users) + [User(old(nextUserId), "System Administrator", AdminEmail, "admin", Admin, now)]
        && nextUserId == old(nextUserId) + 1
      ensures FirstWithEmail(users, AdminEmail).Some?
      ensures UniqueEmails(old(users)) ==> UniqueEmails(users)
    {
      var adminExists := FirstWithEmail(users, AdminEmail);
      if adminExists.None? {
        var _ := AddUser(User(0, "System Administrator", AdminEmail, "admin", Admin, now));
        assert users[|users| - 1].email == AdminEmail;
      }
    }

    /** `findSimilarChunks(query, limit)`: scores every stored chunk, sorts by descending
        score and keeps the first `limit`. */
    method FindSimilarChunks(query: seq<real>, sim: Similarity, limit: int := DefaultLimit)
      returns (r: seq<ScoredChunk>)
      requires Valid()
      ensures IsTopK(r, chunks, query, sim, SliceEnd(|chunks|, limit))
      ensures Distinct(ChunksOf(r))
    {
      var rows := chunks;
      var scored := ScoreAll(rows, query, sim);
      var a := new ScoredChunk[|rows|](i requires 0 <= i < |rows| => scored[i]);
      assert a[..] == scored;
      SortByScore(a);
      var k := SliceEnd(a.Length, limit);
      r := a[..k];
      RankingOfSortedPermutation(a[..], rows, query, sim, k);
      IncreasingIsDistinct(rows, ChunkKey);
      ScoreAllDistinct(rows, query, sim);
      PermutationKeepsDistinct(a[..], scored);
      PrefixDistinctChunks(a[..], rows, query, sim, k);
    }
  }

  /** `array.slice(0, end)` keeps this many of `n` elements: JavaScript counts a negative
      `end` from the back and clamps it into `[0, n]`. */
  function SliceEnd(n: nat, end: int): (k: nat)
    ensures k <= n
    ensures 0 <= end ==> k == if end < n then end else n
    ensures end < 0 ==> k == if n + end < 0 then 0 else n + end
  {
    if end < 0 then (if n + end < 0 then 0 else n + end)
    else if end > n then n
    else end
  }

  /** Every row paired with its score against the query, in table order. */
  function ScoreAll(rows: seq<DocumentChunk>, query: seq<real>, sim: Similarity): (r: seq<ScoredChunk>)
    ensures |r| == |rows|
    ensures forall i :: 0 <= i < |rows| ==> r[i] == ScoredChunk(rows[i], sim(query, rows[i].embedding))
  {
    seq(|rows|, i requires 0 <= i < |rows| => ScoredChunk(rows[i], sim(query, rows[i].embedding)))
  }

  function ChunksOf(r: seq<ScoredChunk>): (cs: seq<DocumentChunk>)
    ensures |cs| == |r| && forall i :: 0 <= i < |r| ==> cs[i] == r[i].chunk
  {
    seq(|r|, i requires 0 <= i < |r| => r[i].chunk)
  }

  /** Scores never increase along the sequence. */
  predicate SortedByScore(s: seq<ScoredChunk>) {
    forall i, j :: 0 <= i < j < |s| ==> s[i].score >= s[j].score
  }

  /** `r` is a top-`k` ranking of `rows` against `query`: `k` results, best first, each a
      stored row with its own score, no row used more often than it is stored, and no row
      left out scoring above the last result. */
  ghost predicate IsTopK(r: seq<ScoredChunk>, rows: seq<DocumentChunk>, query: seq<real>, sim: Similarity, k: nat) {
    && |r| == k
    && SortedByScore(r)
    && (forall i :: 0 <= i < |r| ==> r[i].chunk in rows && r[i].score == sim(query, r[i].chunk.embedding))
    && multiset(r) <= multiset(ScoreAll(rows, query, sim))
    && (forall c :: c in rows && c !in ChunksOf(r) && |r| > 0 ==> sim(query, c.embedding) <= r[|r| - 1].score)
  }

  /** `scored.sort((a, b) => b.score - a.score)`, in place (insertion sort). */
  method SortByScore(a: array<ScoredChunk>)
    modifies a
    ensures SortedByScore(a[..])
    ensures multiset(a[..]) == multiset(old(a[..]))
  {
    var i := 0;
    while i < a.Length
      invariant 0 <= i <= a.Length
      invariant SortedByScore(a[..i])
      invariant multiset(a[..]) == multiset(old(a[..]))
    {
      InsertLast(a, i);
      i := i + 1;
    }
  }

  /** Moves `a[i]` towards the front past every smaller score, so that `a[..i + 1]` is sorted. */
  method InsertLast(a: array<ScoredChunk>, i: nat)
    requires i < a.Length
    requires SortedByScore(a[..i])
    modifies a
    ensures SortedByScore(a[..i + 1])
    ensures multiset(a[..]) == multiset(old(a[..]))
  {
    var j := i;
    while j > 0 && a[j - 1].score < a[j].score
      invariant 0 <= j <= i
      invariant forall p, q :: 0 <= p < q <= i && p != j && q != j ==> a[p].score >= a[q].score
      invariant forall q :: j < q <= i ==> a[j].score >= a[q].score
      invariant multiset(a[..]) == multiset(old(a[..]))
    {
      Swap(a, j - 1, j);
      j := j - 1;
    }
  }

  /** Exchanges two neighbouring elements. */
  method Swap(a: array<ScoredChunk>, i: nat, j: nat)
    requires i < j < a.Length
    modifies a
    ensures a[..] == old(a[..])[i := old(a[j])][j := old(a[i])]
    ensures multiset(a[..]) == multiset(old(a[..]))
  {
    a[i], a[j] := a[j], a[i];
  }

  lemma ScoreAllMember(x: ScoredChunk, rows: seq<DocumentChunk>, query: seq<real>, sim: Similarity)
    requires x in multiset(ScoreAll(rows, query, sim))
    ensures x.chunk in rows && x.score == sim(query, x.chunk.embedding)
  {
    var s := ScoreAll(rows, query, sim);
    assert x in s;
    var m :| 0 <= m < |s| && s[m] == x;
  }

  /** The first `k` of a sorted rearrangement of the scored rows are a top-`k` ranking. */
  lemma RankingOfSortedPermutation(a: seq<ScoredChunk>, rows: seq<DocumentChunk>, query: seq<real>, sim: Similarity, k: nat)
    requires SortedByScore(a)
    requires multiset(a) == multiset(ScoreAll(rows, query, sim))
    requires k <= |a|
    ensures IsTopK(a[..k], rows, query, sim, k)
  {
    var r := a[..k];
    assert SortedByScore(r) by {
      forall i, j | 0 <= i < j < |r| ensures r[i].score >= r[j].score {
        assert r[i] == a[i] && r[j] == a[j];
      }
    }
    assert multiset(r) <= multiset(ScoreAll(rows, query, sim)) by {
      assert a == r + a[k..];
      assert multiset(a) == multiset(r) + multiset(a[k..]);
    }
    forall i | 0 <= i < |r| ensures r[i].chunk in rows && r[i].score == sim(query, r[i].chunk.embedding) {
      assert r[i] == a[i] && a[i] in multiset(a);
      ScoreAllMember(r[i], rows, query, sim);
    }
    forall c | c in rows && c !in ChunksOf(r) && |r| > 0 ensures sim(query, c.embedding) <= r[|r| - 1].score {
      LeftOutScoresLower(a, rows, query, sim, k, c);
    }
  }

  /** A row whose scored pair lies beyond the first `k` of the sorted sequence scores no
      higher than the `k`-th. */
  lemma LeftOutScoresLower(a: seq<ScoredChunk>, rows: seq<DocumentChunk>, query: seq<real>, sim: Similarity, k: nat, c: DocumentChunk)
    requires SortedByScore(a)
    requires multiset(a) == multiset(ScoreAll(rows, query, sim))
    requires 0 < k <= |a|
    requires c in rows && c !in ChunksOf(a[..k])
    ensures sim(query, c.embedding) <= a[k - 1].score
  {
    var s := ScoreAll(rows, query, sim);
    var m :| 0 <= m < |rows| && rows[m] == c;
    assert s[m] in multiset(a);
    var p :| 0 <= p < |a| && a[p] == s[m];
    assert p >= k;
  }

  /** Rows with distinct keys give distinct scored rows. */
  lemma ScoreAllDistinct(rows: seq<DocumentChunk>, query: seq<real>, sim: Similarity)
    requires Distinct(rows)
    ensures Distinct(ScoreAll(rows, query, sim))
  {
  }

  lemma PrefixDistinctChunks(a: seq<ScoredChunk>, rows: seq<DocumentChunk>, query: seq<real>, sim: Similarity, k: nat)
    requires Distinct(a)
    requires k <= |a|
    requires IsTopK(a[..k], rows, query, sim, k)
    ensures Distinct(ChunksOf(a[..k]))
  {
    var r := a[..k];
    forall i, j | 0 <= i < j < |r| ensures r[i].chunk != r[j].chunk {
      assert r[i] == a[i] && r[j] == a[j];
    }
  }

  /** The three sums `cosineSimilarity` accumulates before its final division. */
  datatype CosineParts = CosineParts(dot: real, normA: real, normB: real)

  /** The sum of `a[i] * b[i]` over the indices of `a`. */
  function Dot(a: seq<real>, b: seq<real>): real
    requires |a| <= |b|
  {
    if a == [] then 0.0 else Dot(a[..|a| - 1], b) + a[|a| - 1] * b[|a| - 1]
  }

  /** The accumulator loop of `cosineSimilarity`. The loop runs over the indices of `vecA`
      only; when `vecB` is shorter, JavaScript multiplies by `undefined` and the score is NaN,
      which is `None` here. */
  method CosineSimilarityParts(vecA: seq<real>, vecB: seq<real>) returns (parts: Option<CosineParts>)
    ensures parts.None? <==> |vecB| < |vecA|
    ensures parts.Some? ==> parts.value == CosineParts(Dot(vecA, vecB), Dot(vecA, vecA), Dot(vecB[..|vecA|], vecB))
  {
    var dotProduct, normA, normB := 0.0, 0.0, 0.0;
    var defined := true;
    var i := 0;
    while i < |vecA|
      invariant 0 <= i <= |vecA|
      invariant defined <==> i <= |vecB|
      invariant defined ==> dotProduct == Dot(vecA[..i], vecB) && normB == Dot(vecB[..i], vecB)
      invariant normA == Dot(vecA[..i], vecA)
    {
      if i < |vecB| {
        assert vecA[..i + 1][..i] == vecA[..i] && vecB[..i + 1][..i] == vecB[..i];
        dotProduct := dotProduct + vecA[i] * vecB[i];
        normB := normB + vecB[i] * vecB[i];
      } else {
        defined := false;
      }
      assert vecA[..i + 1][..i] == vecA[..i];
      normA := normA + vecA[i] * vecA[i];
      i := i + 1;
    }
    assert vecA[..|vecA|] == vecA;
    if defined {
      parts := Some(CosineParts(dotProduct, normA, normB));
    } else {
      parts := None;
    }
  }

  /** For vectors of one length the dot product does not depend on the order of its arguments. */
  lemma {:induction false} DotSymmetric(a: seq<real>, b: seq<real>)
    requires |a| == |b|
    ensures Dot(a, b) == Dot(b, a)
  {
    if a != [] {
      var n := |a| - 1;
      DotPrefix(a[..n], b, b[..n]);
      DotPrefix(b[..n], a, a[..n]);
      DotSymmetric(a[..n], b[..n]);
    }
  }

  /** `Dot` reads `b` only at the indices of `a`. */
  lemma {:induction false} DotPrefix(a: seq<real>, b: seq<real>, b': seq<real>)
    requires |a| <= |b'| <= |b| && b' == b[..|b'|]
    ensures Dot(a, b) == Dot(a, b')
  {
    if a != [] {
      DotPrefix(a[..|a| - 1], b, b');
    }
  }

  /** A squared norm is never negative. */
  lemma {:induction false} NormNonNegative(a: seq<real>)
    ensures Dot(a, a) >= 0.0
  {
    if a != [] {
      var n := |a| - 1;
      DotPrefix(a[..n], a, a[..n]);
      NormNonNegative(a[..n]);
    }
  }
}
