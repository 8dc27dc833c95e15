/**
  The retrieval-augmented-generation document base (src/rag/docbase.ts).

  A document base keeps an ordered registry of sources consistent with a
  vector store. The Loader, Splitter, Embedder, VectorDB and file enumerator
  are collaborators given as an `Env`; the vector store and the progress
  callback are observed through the trace of `Event`s an operation emits, in
  order. Every operation is sequential: each `await` becomes one step.
 */
module DocBase {
  import opened Wrappers
  import opened JsString
  import opened Seqs

  /** Folder ingestion commits after every this many successful additions. */
  const ADD_COMMIT_EVERY: nat := 5
  /** Folder deletion commits after every this many confirmed removals. */
  const DELETE_COMMIT_EVERY: nat := 10

  datatype SourceType = File | Url | Folder

  /** A document source; only folders ever get `items`. */
  datatype Source = Source(uuid: string, kind: SourceType, origin: string, title: Option<string>, items: seq<Source>)

  /** The metadata stored with every chunk row. */
  datatype Meta = Meta(uuid: string, kind: SourceType, title: Option<string>, url: string)

  /** One observable step: a vector-store call or an invocation of the progress callback. */
  datatype Event =
    | Begin
    | Commit
    | Insert(key: string, content: string, meta: Meta)
    | Delete(key: string)
    | Notify

  datatype DocError = UnsupportedType | LoadFailure | EmptyDocument | EmptyPdf | TooLarge | NotFound

  /**
    The collaborators. `load` yields `None` when the loader throws; `freshId(k)`
    is the k-th uuid generated while ingesting a folder; `maxDocumentSizeMB`
    is the configured limit, or its default when unset.
   */
  datatype Env = Env(
    parseable: (SourceType, string) -> bool,
    load: (SourceType, string) -> Option<string>,
    split: string -> seq<string>,
    listFiles: string -> seq<string>,
    freshId: nat -> string,
    maxDocumentSizeMB: int)

  function NewSource(uuid: string, kind: SourceType, origin: string): Source {
    Source(uuid, kind, origin, None, [])
  }

  /* ---------------------------------------------------------------- traces */

  function Count(tr: seq<Event>, e: Event): (n: nat)
    ensures n <= |tr|
  {
    if |tr| == 0 then 0 else (if tr[0] == e then 1 else 0) + Count(tr[1..], e)
  }

  /** The insert events of a trace, in order. */
  function Inserts(tr: seq<Event>): (r: seq<Event>)
    ensures forall i :: 0 <= i < |r| ==> r[i].Insert?
  {
    if |tr| == 0 then [] else (if tr[0].Insert? then [tr[0]] else []) + Inserts(tr[1..])
  }

  /** The keys of the store deletes of a trace, in order. */
  function Deletes(tr: seq<Event>): seq<string> {
    if |tr| == 0 then [] else (if tr[0].Delete? then [tr[0].key] else []) + Deletes(tr[1..])
  }

  lemma {:induction false} CountAppend(a: seq<Event>, b: seq<Event>, e: Event)
    ensures Count(a + b, e) == Count(a, e) + Count(b, e)
  {
    if |a| > 0 {
      assert (a + b)[1..] == a[1..] + b;
      CountAppend(a[1..], b, e);
    } else {
      assert a + b == b;
    }
  }

  lemma {:induction false} InsertsAppend(a: seq<Event>, b: seq<Event>)
    ensures Inserts(a + b) == Inserts(a) + Inserts(b)
  {
    if |a| > 0 {
      assert (a + b)[1..] == a[1..] + b;
      InsertsAppend(a[1..], b);
    } else {
      assert a + b == b;
    }
  }

  lemma {:induction false} DeletesAppend(a: seq<Event>, b: seq<Event>)
    ensures Deletes(a + b) == Deletes(a) + Deletes(b)
  {
    if |a| > 0 {
      assert (a + b)[1..] == a[1..] + b;
      DeletesAppend(a[1..], b);
    } else {
      assert a + b == b;
    }
  }

  /** The progress callback, when one was passed. */
  function Callback(notify: bool): seq<Event> {
    if notify then [Notify] else []
  }

  /** What a batch boundary emits after the `n`-th counted step. */
  function Batch(n: nat, every: nat, notify: bool): seq<Event>
    requires every > 0
  {
    if n % every == 0 then [Commit] + Callback(notify) + [Begin] else []
  }

  /** Counting one more step crosses a batch boundary exactly when the new count is a multiple of the batch size. */
  lemma DivStep(a: nat, k: nat)
    requires k == ADD_COMMIT_EVERY || k == DELETE_COMMIT_EVERY
    ensures (a + 1) / k == a / k + (if (a + 1) % k == 0 then 1 else 0)
  {
    if k == 5 {
      assert (a + 1) / 5 == a / 5 + (if (a + 1) % 5 == 0 then 1 else 0);
    } else {
      assert (a + 1) / 10 == a / 10 + (if (a + 1) % 10 == 0 then 1 else 0);
    }
  }

  /** The views of a trace distribute over a three-part concatenation. */
  lemma Append3(a: seq<Event>, b: seq<Event>, c: seq<Event>)
    ensures forall e :: Count(a + b + c, e) == Count(a, e) + Count(b, e) + Count(c, e)
    ensures Inserts(a + b + c) == Inserts(a) + Inserts(b) + Inserts(c)
    ensures Deletes(a + b + c) == Deletes(a) + Deletes(b) + Deletes(c)
  {
    forall e ensures Count(a + b + c, e) == Count(a, e) + Count(b, e) + Count(c, e) {
      CountAppend(a + b, c, e);
      CountAppend(a, b, e);
    }
    InsertsAppend(a + b, c);
    InsertsAppend(a, b);
    DeletesAppend(a + b, c);
    DeletesAppend(a, b);
  }

  /** The views of a one-event trace. */
  lemma Single(e: Event)
    ensures forall x :: Count([e], x) == (if e == x then 1 else 0)
    ensures Inserts([e]) == (if e.Insert? then [e] else [])
    ensures Deletes([e]) == (if e.Delete? then [e.key] else [])
  {
    forall x ensures Count([e], x) == (if e == x then 1 else 0) {
      assert [e][1..] == [];
    }
    assert [e][1..] == [];
  }

  /** A batch boundary commits (and calls back, and begins) once, or emits nothing. */
  lemma BatchFacts(n: nat, every: nat, notify: bool)
    requires every > 0
    ensures var b := Batch(n, every, notify);
      && Count(b, Commit) == (if n % every == 0 then 1 else 0)
      && Count(b, Begin) == Count(b, Commit)
      && Count(b, Notify) == (if notify then Count(b, Commit) else 0)
      && Inserts(b) == [] && Deletes(b) == []
  {
    if n % every == 0 {
      Append3([Commit], Callback(notify), [Begin]);
      Single(Commit);
      Single(Begin);
      if notify {
        Single(Notify);
      }
    }
  }

  /* ------------------------------------------------------ the page check */

  /** The end of the run of `-` that starts at index `i`. */
  function DashEnd(s: string, i: nat): (n: nat)
    requires i <= |s|
    ensures i <= n <= |s| && (n == |s| || s[n] != '-')
    ensures forall j :: i <= j < n ==> s[j] == '-'
    decreases |s| - i
  {
    if i == |s| || s[i] != '-' then i else DashEnd(s, i + 1)
  }

  predicate IsDigit(c: char) {
    '0' <= c <= '9'
  }

  /** The end of the run of ASCII digits that starts at index `i`. */
  function DigitEnd(s: string, i: nat): (n: nat)
    requires i <= |s|
    ensures i <= n <= |s| && (n == |s| || !IsDigit(s[n]))
    ensures forall j :: i <= j < n ==> IsDigit(s[j])
    decreases |s| - i
  {
    if i == |s| || !IsDigit(s[i]) then i else DigitEnd(s, i + 1)
  }

  /**
    The anchored pattern `^-+Page \(\d+\) Break-+$` (no multiline flag): the
    whole string is one page-break marker, as an image-only PDF loads.
   */
  predicate IsPageBreak(s: string) {
    var a := DashEnd(s, 0);
    a >= 1 && OccursAt(s, "Page (", a) &&
    var e := DigitEnd(s, a + 6);
    e > a + 6 && OccursAt(s, ") Break", e) &&
    e + 7 < |s| && DashEnd(s, e + 7) == |s|
  }

  function Dashes(n: nat): (r: string)
    ensures |r| == n && forall i :: 0 <= i < n ==> r[i] == '-'
  {
    seq(n, _ => '-')
  }

  /** A marker with `k` leading dashes, page number `digits` and `m` trailing dashes. */
  function Marker(k: nat, digits: string, m: nat): string {
    Dashes(k) + "Page (" + digits + ") Break" + Dashes(m)
  }

  predicate AllDigits(s: string) {
    forall i :: 0 <= i < |s| ==> IsDigit(s[i])
  }

  /** The page check accepts exactly the strings that are one marker. */
  lemma PageBreakIsMarker(s: string)
    ensures IsPageBreak(s) <==> exists k, d, m :: 1 <= k && 1 <= m && |d| >= 1 && AllDigits(d) && s == Marker(k, d, m)
  {
    if IsPageBreak(s) {
      var a, e := PageBreakToMarker(s);
      assert |s[a + 6..e]| >= 1;
    }
    if exists k, d, m :: 1 <= k && 1 <= m && |d| >= 1 && AllDigits(d) && s == Marker(k, d, m) {
      var k, d, m :| 1 <= k && 1 <= m && |d| >= 1 && AllDigits(d) && s == Marker(k, d, m);
      MarkerIsPageBreak(k, d, m);
    }
  }

  /** A string the page check accepts is the marker of its own runs. */
  lemma PageBreakToMarker(s: string) returns (a: nat, e: nat)
    requires IsPageBreak(s)
    ensures 1 <= a && a + 6 < e && e + 7 < |s|
    ensures s == Marker(a, s[a + 6..e], |s| - e - 7) && AllDigits(s[a + 6..e])
  {
    a := DashEnd(s, 0);
    e := DigitEnd(s, a + 6);
    MarkerOfPieces(s, a, e);
  }

  /** Five pieces cut at the run ends of a marker make up that marker. */
  lemma MarkerOfPieces(s: string, a: nat, e: nat)
    requires a + 6 <= e && e + 7 <= |s|
    requires forall j :: 0 <= j < a ==> s[j] == '-'
    requires forall j :: a + 6 <= j < e ==> IsDigit(s[j])
    requires forall j :: e + 7 <= j < |s| ==> s[j] == '-'
    requires OccursAt(s, "Page (", a) && OccursAt(s, ") Break", e)
    ensures s == Marker(a, s[a + 6..e], |s| - e - 7) && AllDigits(s[a + 6..e])
  {
    var d := s[a + 6..e];
    Split5(s, a, a + 6, e, e + 7);
    DashesOf(s[..a]);
    DashesOf(s[e + 7..]);
    assert AllDigits(d) by {
      forall i | 0 <= i < |d| ensures IsDigit(d[i]) {
        assert d[i] == s[a + 6 + i];
      }
    }
  }

  /** A string is the concatenation of its pieces between four cut points. */
  lemma Split5(s: string, i: nat, j: nat, k: nat, l: nat)
    requires i <= j <= k <= l <= |s|
    ensures s == s[..i] + s[i..j] + s[j..k] + s[k..l] + s[l..]
  {
    assert s[..j] == s[..i] + s[i..j];
    assert s[..k] == s[..j] + s[j..k];
    assert s[..l] == s[..k] + s[k..l];
    assert s == s[..l] + s[l..];
  }

  /** The pieces of a concatenation of five strings, by position. */
  lemma Pieces5(a: string, b: string, c: string, d: string, e: string)
    ensures var s := a + b + c + d + e;
      var i, j, k, l := |a|, |a| + |b|, |a| + |b| + |c|, |a| + |b| + |c| + |d|;
      && |s| == l + |e|
      && s[..i] == a && s[i..j] == b && s[j..k] == c && s[k..l] == d && s[l..] == e
  {
  }

  /** A run of dashes is `Dashes` of its length. */
  lemma DashesOf(x: string)
    requires forall i :: 0 <= i < |x| ==> x[i] == '-'
    ensures x == Dashes(|x|)
  {
  }

  /** The dash run is pinned down by where the dashes stop. */
  lemma DashEndAt(s: string, i: nat, n: nat)
    requires i <= n <= |s| && (n == |s| || s[n] != '-')
    requires forall j :: i <= j < n ==> s[j] == '-'
    ensures DashEnd(s, i) == n
  {
  }

  /** Likewise the digit run. */
  lemma DigitEndAt(s: string, i: nat, n: nat)
    requires i <= n <= |s| && (n == |s| || !IsDigit(s[n]))
    requires forall j :: i <= j < n ==> IsDigit(s[j])
    ensures DigitEnd(s, i) == n
  {
  }

  /** Every marker passes the page check, whatever the numbers of dashes and digits. */
  lemma MarkerIsPageBreak(k: nat, d: string, m: nat)
    requires 1 <= k && 1 <= m && |d| >= 1 && AllDigits(d)
    ensures IsPageBreak(Marker(k, d, m))
  {
    var s := Marker(k, d, m);
    Pieces5(Dashes(k), "Page (", d, ") Break", Dashes(m));
    PiecesArePageBreak(s, k, k + 6 + |d|);
  }

  /** The page check accepts a string cut into a marker's five pieces. */
  lemma PiecesArePageBreak(s: string, a: nat, e: nat)
    requires 1 <= a && a + 6 < e && e + 7 < |s|
    requires s[..a] == Dashes(a) && s[e + 7..] == Dashes(|s| - e - 7)
    requires s[a..a + 6] == "Page (" && s[e..e + 7] == ") Break"
    requires AllDigits(s[a + 6..e])
    ensures IsPageBreak(s)
  {
    assert s[a] == s[a..a + 6][0];
    DashEndAt(s, 0, a) by {
      forall j | 0 <= j < a ensures s[j] == '-' {
        assert s[j] == s[..a][j];
      }
    }
    assert s[e] == s[e..e + 7][0];
    DigitEndAt(s, a + 6, e) by {
      forall j | a + 6 <= j < e ensures IsDigit(s[j]) {
        assert s[j] == s[a + 6..e][j - (a + 6)];
      }
    }
    DashEndAt(s, e + 7, |s|) by {
      forall j | e + 7 <= j < |s| ensures s[j] == '-' {
        assert s[j] == s[e + 7..][j - (e + 7)];
      }
    }
  }

  /* ------------------------------------------------------ the title regex */

  predicate OpenTagAt(t: string, i: int) {
    0 <= i && i + 7 <= |t| && EqualsIgnoringCase(t[i..i + 7], "<title>")
  }

  predicate CloseTagAt(t: string, j: int) {
    0 <= j && j + 8 <= |t| && EqualsIgnoringCase(t[j..j + 8], "</title>")
  }

  /** `t[a..b]` holds no line terminator, so `.` matches all of it. */
  predicate SameLine(t: string, a: int, b: int) {
    0 <= a <= b <= |t| && forall p :: a <= p < b ==> !IsLineTerminator(t[p])
  }

  /** `/<title>(.*?)<\/title>/i` can match at `i` with its capture ending at `j`. */
  predicate TitleMatchAt(t: string, i: int, j: int) {
    OpenTagAt(t, i) && CloseTagAt(t, j) && SameLine(t, i + 7, j)
  }

  /** The lazy capture: the first closing tag reachable from `k` on the same line. */
  function CloseFrom(t: string, k: nat): (r: Option<nat>)
    requires k <= |t|
    ensures r.Some? ==> k <= r.value && CloseTagAt(t, r.value) && SameLine(t, k, r.value)
    ensures r.Some? ==> forall j :: k <= j < r.value ==> !CloseTagAt(t, j)
    ensures r.None? ==> forall j :: k <= j && CloseTagAt(t, j) ==> !SameLine(t, k, j)
    decreases |t| - k
  {
    if CloseTagAt(t, k) then Some(k)
    else if k == |t| || IsLineTerminator(t[k]) then None
    else CloseFrom(t, k + 1)
  }

  /** The leftmost match at or after `i`, as (start of `<title>`, end of the capture). */
  function MatchFrom(t: string, i: nat): (r: Option<(nat, nat)>)
    ensures r.Some? ==> i <= r.value.0 && TitleMatchAt(t, r.value.0, r.value.1)
    ensures r.Some? ==> forall j :: r.value.0 + 7 <= j < r.value.1 ==> !CloseTagAt(t, j)
    ensures r.Some? ==> forall p, j :: i <= p < r.value.0 ==> !TitleMatchAt(t, p, j)
    ensures r.None? ==> forall p, j :: i <= p ==> !TitleMatchAt(t, p, j)
    decreases |t| - i
  {
    if i + 7 > |t| then None
    else if OpenTagAt(t, i) then
      match CloseFrom(t, i + 7)
      case Some(j) => Some((i, j))
      case None => MatchFrom(t, i + 1)
    else MatchFrom(t, i + 1)
  }

  /**
    The capture group of the first match of `/<title>(.*?)<\/title>/i`: the
    leftmost opening tag that has a closing tag later on its line, up to the
    first such closing tag.
   */
  function TitleCapture(t: string): (r: Option<string>)
    ensures r.None? <==> forall i, j :: !TitleMatchAt(t, i, j)
    ensures r.Some? ==> exists i, j ::
      && TitleMatchAt(t, i, j) && r.value == t[i + 7..j]
      && (forall p, q :: 0 <= p < i ==> !TitleMatchAt(t, p, q))
      && (forall q :: i + 7 <= q < j ==> !CloseTagAt(t, q))
  {
    match MatchFrom(t, 0)
    case None => None
    case Some((i, j)) => Some(t[i + 7..j])
  }

  /** The title after loading: a web page takes its trimmed `<title>`, when non-empty. */
  function ResolveTitle(kind: SourceType, text: string, title: Option<string>): (r: Option<string>)
    ensures kind != Url ==> r == title
    ensures kind == Url && TitleCapture(text).Some? && TitleCapture(text).value != "" ==>
      r == Some(Trim(TitleCapture(text).value))
    ensures (TitleCapture(text).None? || TitleCapture(text) == Some("")) ==> r == title
  {
    if kind == Url then
      match TitleCapture(text)
      case Some(c) => if c != "" then Some(Trim(c)) else title
      case None => title
    else title
  }

  /**
    A page that is exactly `<title>c</title>`, with `c` on one line and free of
    `<`, gets the trimmed `c` as its title.
   */
  lemma TitleOfWrapped(c: string, title: Option<string>)
    requires c != "" && '<' !in c
    requires forall p :: 0 <= p < |c| ==> !IsLineTerminator(c[p])
    ensures ResolveTitle(Url, "<title>" + c + "</title>", title) == Some(Trim(c))
  {
    var t := "<title>" + c + "</title>";
    var e := 7 + |c|;
    WrappedTags(c);
    assert CloseFrom(t, 7) == Some(e);
    assert MatchFrom(t, 0) == Some((0, e));
    assert TitleCapture(t) == Some(t[7..e]);
  }

  /** The tags of `<title>c</title>`: an opening tag at 0, no closing tag before the one after `c`. */
  lemma WrappedTags(c: string)
    requires '<' !in c
    requires forall p :: 0 <= p < |c| ==> !IsLineTerminator(c[p])
    ensures var t := "<title>" + c + "</title>";
      && OpenTagAt(t, 0) && CloseTagAt(t, 7 + |c|) && SameLine(t, 7, 7 + |c|)
      && t[7..7 + |c|] == c
      && forall j :: 7 <= j < 7 + |c| ==> !CloseTagAt(t, j)
  {
    var t := "<title>" + c + "</title>";
    var e := 7 + |c|;
    assert t[..7] == "<title>";
    assert t[e..] == "</title>";
    assert t[7..e] == c;
    forall j | 7 <= j < e
      ensures !CloseTagAt(t, j)
    {
      assert t[j] == c[j - 7];
      if CloseTagAt(t, j) {
        CloseTagStartsWithLt(t, j);
      }
    }
  }

  lemma CloseTagStartsWithLt(t: string, j: int)
    requires CloseTagAt(t, j)
    ensures t[j] == '<'
  {
    assert t[j..j + 8][0] == t[j];
    assert LowerAscii(t[j]) == '<';
  }

  /* ------------------------------------------------------ addDocument */

  /** The size limit in characters: `maxDocumentSizeMB * 1024 * 1024`. */
  function SizeLimit(env: Env): int {
    env.maxDocumentSizeMB * 1024 * 1024
  }

  /** The loader accepts the source, loads non-empty text, and that text passes both content checks. */
  predicate Ingestible(env: Env, kind: SourceType, origin: string) {
    && env.parseable(kind, origin)
    && env.load(kind, origin).Some?
    && var text := env.load(kind, origin).value;
       text != "" && !IsPageBreak(Trim(text)) && |text| <= SizeLimit(env)
  }

  function MetaOf(s: Source): Meta {
    Meta(s.uuid, s.kind, s.title, s.origin)
  }

  /** One insert per chunk, in chunk order, keyed and tagged with the source's uuid. */
  function ChunkInserts(s: Source, chunks: seq<string>): (r: seq<Event>)
    ensures |r| == |chunks|
    ensures forall i :: 0 <= i < |r| ==> r[i] == Insert(s.uuid, chunks[i], MetaOf(s))
  {
    if |chunks| == 0 then [] else [Insert(s.uuid, chunks[0], MetaOf(s))] + ChunkInserts(s, chunks[1..])
  }

  lemma {:induction false} ChunkInsertsAreInserts(s: Source, chunks: seq<string>)
    ensures Inserts(ChunkInserts(s, chunks)) == ChunkInserts(s, chunks)
    ensures Count(ChunkInserts(s, chunks), Commit) == 0
    ensures Count(ChunkInserts(s, chunks), Begin) == 0
    ensures Count(ChunkInserts(s, chunks), Notify) == 0
    ensures Deletes(ChunkInserts(s, chunks)) == []
  {
    if |chunks| > 0 {
      ChunkInsertsAreInserts(s, chunks[1..]);
    }
  }

  /**
    addDocument: check the type, load, reject empty, page-break-only and
    oversized text, resolve a web page's title, split, then insert every chunk
    and finally call the callback (`notify`). Embedding vectors are not part
    of the model. A failure emits nothing: every rejection happens before the
    first insert.
   */
  function AddDocument(env: Env, source: Source, notify: bool): (r: Result<(Source, seq<Event>), DocError>)
    ensures r.Success? <==> Ingestible(env, source.kind, source.origin)
    ensures !env.parseable(source.kind, source.origin) ==> r == Failure(UnsupportedType)
    ensures env.parseable(source.kind, source.origin) && env.load(source.kind, source.origin).None? ==>
      r == Failure(LoadFailure)
    ensures env.parseable(source.kind, source.origin) && env.load(source.kind, source.origin) == Some("") ==>
      r == Failure(EmptyDocument)
    ensures r.Success? ==>
      var (s, tr) := r.value;
      var text := env.load(source.kind, source.origin).value;
      && s == source.(title := ResolveTitle(source.kind, text, source.title))
      && tr == ChunkInserts(s, env.split(text)) + Callback(notify)
      && Count(tr, Commit) == 0 && Count(tr, Begin) == 0 && Deletes(tr) == []
      && Count(tr, Notify) == (if notify then 1 else 0)
      && Inserts(tr) == ChunkInserts(s, env.split(text))
  {
    if !env.parseable(source.kind, source.origin) then Failure(UnsupportedType)
    else match env.load(source.kind, source.origin)
      case None => Failure(LoadFailure)
      case Some(text) =>
        if text == "" then Failure(EmptyDocument)
        else if IsPageBreak(Trim(text)) then Failure(EmptyPdf)
        else if |text| > SizeLimit(env) then Failure(TooLarge)
        else
          var s := source.(title := ResolveTitle(source.kind, text, source.title));
          var chunks := ChunkInserts(s, env.split(text));
          ChunkInsertsAreInserts(s, env.split(text));
          CountAppend(chunks, Callback(notify), Commit);
          CountAppend(chunks, Callback(notify), Begin);
          CountAppend(chunks, Callback(notify), Notify);
          DeletesAppend(chunks, Callback(notify));
          InsertsAppend(chunks, Callback(notify));
          Success((s, chunks + Callback(notify)))
  }

  /** Every rejection reason, with the error it raises, in the order they are checked. */
  lemma AddDocumentRejections(env: Env, source: Source, notify: bool)
    requires env.parseable(source.kind, source.origin) && env.load(source.kind, source.origin).Some?
    ensures var text := env.load(source.kind, source.origin).value;
      && (text != "" && IsPageBreak(Trim(text)) ==> AddDocument(env, source, notify) == Failure(EmptyPdf))
      && (text != "" && !IsPageBreak(Trim(text)) && |text| > SizeLimit(env) ==>
            AddDocument(env, source, notify) == Failure(TooLarge))
  {
  }

  /** Whitespace-only text is not rejected as empty: only the empty string is. */
  lemma WhitespaceTextIsAccepted(env: Env, source: Source, notify: bool)
    requires env.parseable(source.kind, source.origin)
    requires env.load(source.kind, source.origin) == Some(" ")
    requires SizeLimit(env) >= 1
    ensures AddDocument(env, source, notify).Success?
  {
    assert Trim(" ") == "";
  }

  /* ------------------------------------------------------ addFolder */

  /** The leaf created for the `k`-th file of a folder. */
  function FileSource(env: Env, path: string, k: nat): Source {
    NewSource(env.freshId(k), File, path)
  }

  /** A plain file's title is never resolved, so a successful add returns the leaf as it was. */
  lemma FileAddKeepsSource(env: Env, path: string, k: nat)
    requires Ingestible(env, File, path)
    ensures AddDocument(env, FileSource(env, path, k), false).value.0 == FileSource(env, path, k)
  {
  }

  /**
    The ingestion loop of addFolder from file index `at`, with `added` files
    already added: returns the new items and the events. A failing file is
    skipped; every `ADD_COMMIT_EVERY`-th success commits, calls back and
    begins a new transaction.
   */
  function Ingest(env: Env, files: seq<string>, at: nat, added: nat): (r: (seq<Source>, seq<Event>))
    decreases |files|
  {
    if |files| == 0 then ([], [])
    else
      var res := AddDocument(env, FileSource(env, files[0], at), false);
      if res.Success? then
        var (items, tr) := Ingest(env, files[1..], at + 1, added + 1);
        ([res.value.0] + items, res.value.1 + Batch(added + 1, ADD_COMMIT_EVERY, true) + tr)
      else
        Ingest(env, files[1..], at + 1, added)
  }

  /** The files a folder ingestion can add, in enumeration order: an independent reference. */
  function IngestibleFiles(env: Env, files: seq<string>): (r: seq<string>)
    ensures |r| <= |files|
  {
    if |files| == 0 then []
    else (if Ingestible(env, File, files[0]) then [files[0]] else []) + IngestibleFiles(env, files[1..])
  }

  function Origins(items: seq<Source>): (r: seq<string>)
    ensures |r| == |items|
    ensures forall i :: 0 <= i < |items| ==> r[i] == items[i].origin
  {
    if |items| == 0 then [] else [items[0].origin] + Origins(items[1..])
  }

  /** A leaf made from a file of a folder: a plain file with no title and no items. */
  predicate PlainFile(s: Source) {
    s.kind == File && s.title == None && s.items == []
  }

  /** The inserts a successful add of this leaf makes, or none when it is rejected. */
  function InsertsOf(env: Env, doc: Source): seq<Event> {
    match AddDocument(env, doc, false)
    case Success((_, ev)) => ev
    case Failure(_) => []
  }

  /** The inserts of every file of a folder, in file order, failures contributing nothing. */
  function FolderInserts(env: Env, files: seq<string>, at: nat): seq<Event>
    decreases |files|
  {
    if |files| == 0 then [] else InsertsOf(env, FileSource(env, files[0], at)) + FolderInserts(env, files[1..], at + 1)
  }

  /**
    What the ingestion loop from file index `at`, with `added` files already
    added, promises: it adds exactly the ingestible files, in order, as plain
    leaves; it commits and calls back once per `ADD_COMMIT_EVERY` successes
    counted from `added`; its inserts are those of every added file in order,
    and it begins one transaction per commit.
   */
  predicate IngestSummary(env: Env, files: seq<string>, at: nat, added: nat) {
    var (items, tr) := Ingest(env, files, at, added);
    && Origins(items) == IngestibleFiles(env, files)
    && (forall i :: 0 <= i < |items| ==> PlainFile(items[i]))
    && Count(tr, Commit) == (added + |items|) / ADD_COMMIT_EVERY - added / ADD_COMMIT_EVERY
    && Count(tr, Notify) == Count(tr, Commit)
    && Count(tr, Begin) == Count(tr, Commit)
    && Inserts(tr) == FolderInserts(env, files, at)
    && Deletes(tr) == []
  }

  /** The ingestion loop keeps its promise from every starting point. */
  lemma {:induction false} IngestFacts(env: Env, files: seq<string>, at: nat, added: nat)
    ensures IngestSummary(env, files, at, added)
    decreases |files|
  {
    if |files| > 0 {
      if AddDocument(env, FileSource(env, files[0], at), false).Success? {
        IngestFacts(env, files[1..], at + 1, added + 1);
        IngestSuccessStep(env, files, at, added);
      } else {
        IngestFacts(env, files[1..], at + 1, added);
        IngestFailureStep(env, files, at, added);
      }
    }
  }

  /** A rejected file adds nothing, emits nothing and leaves the count alone. */
  lemma IngestFailureStep(env: Env, files: seq<string>, at: nat, added: nat)
    requires |files| > 0
    requires !AddDocument(env, FileSource(env, files[0], at), false).Success?
    requires IngestSummary(env, files[1..], at + 1, added)
    ensures IngestSummary(env, files, at, added)
  {
    var doc := FileSource(env, files[0], at);
    assert Ingest(env, files, at, added) == Ingest(env, files[1..], at + 1, added);
    assert InsertsOf(env, doc) == [];
    assert FolderInserts(env, files, at) == FolderInserts(env, files[1..], at + 1);
  }

  /** An added file is one more plain leaf, its inserts, and a commit every `ADD_COMMIT_EVERY`. */
  lemma IngestSuccessStep(env: Env, files: seq<string>, at: nat, added: nat)
    requires |files| > 0
    requires AddDocument(env, FileSource(env, files[0], at), false).Success?
    requires IngestSummary(env, files[1..], at + 1, added + 1)
    ensures IngestSummary(env, files, at, added)
  {
    var doc := FileSource(env, files[0], at);
    var rest := Ingest(env, files[1..], at + 1, added + 1);
    var ev := AddDocument(env, doc, false).value.1;
    var r := Ingest(env, files, at, added);
    assert r.0 == [doc] + rest.0;
    assert r.1 == ev + Batch(added + 1, ADD_COMMIT_EVERY, true) + rest.1;
    AddedItemsStep(env, files, at, rest.0);
    AddedTraceStep(ev, rest.1, added, |rest.0|);
    assert FolderInserts(env, files, at) == ev + FolderInserts(env, files[1..], at + 1);
  }

  /** The leaf of an added file goes in front of the leaves added after it. */
  lemma AddedItemsStep(env: Env, files: seq<string>, at: nat, items: seq<Source>)
    requires |files| > 0 && Ingestible(env, File, files[0])
    requires Origins(items) == IngestibleFiles(env, files[1..])
    requires forall i :: 0 <= i < |items| ==> PlainFile(items[i])
    ensures Origins([FileSource(env, files[0], at)] + items) == IngestibleFiles(env, files)
    ensures forall i :: 0 <= i < |items| + 1 ==> PlainFile(([FileSource(env, files[0], at)] + items)[i])
  {
    var doc := FileSource(env, files[0], at);
    var all := [doc] + items;
    assert all[1..] == items;
    assert Origins(all) == [files[0]] + Origins(items);
    assert IngestibleFiles(env, files) == [files[0]] + IngestibleFiles(env, files[1..]);
    forall i | 0 <= i < |all| ensures PlainFile(all[i]) {
      if i > 0 {
        assert all[i] == items[i - 1];
      }
    }
  }

  /** The trace of one added file, its batch boundary and the rest keeps the loop's counts. */
  lemma AddedTraceStep(ev: seq<Event>, tr: seq<Event>, added: nat, n: nat)
    requires Count(ev, Commit) == 0 && Count(ev, Begin) == 0 && Count(ev, Notify) == 0
    requires Deletes(ev) == [] && Inserts(ev) == ev
    requires Count(tr, Commit) == (added + 1 + n) / ADD_COMMIT_EVERY - (added + 1) / ADD_COMMIT_EVERY
    requires Count(tr, Notify) == Count(tr, Commit) && Count(tr, Begin) == Count(tr, Commit)
    requires Deletes(tr) == []
    ensures var t := ev + Batch(added + 1, ADD_COMMIT_EVERY, true) + tr;
      && Count(t, Commit) == (added + 1 + n) / ADD_COMMIT_EVERY - added / ADD_COMMIT_EVERY
      && Count(t, Notify) == Count(t, Commit)
      && Count(t, Begin) == Count(t, Commit)
      && Inserts(t) == ev + Inserts(tr)
      && Deletes(t) == []
  {
    var b := Batch(added + 1, ADD_COMMIT_EVERY, true);
    Append3(ev, b, tr);
    BatchFacts(added + 1, ADD_COMMIT_EVERY, true);
    DivStep(added, ADD_COMMIT_EVERY);
  }

  /**
    addFolder: one transaction is begun; every file is tried; then a final
    commit and callback are issued unconditionally. The folder keeps its
    current items and gains the new leaves at the end.
   */
  function AddFolder(env: Env, folder: Source): (r: (Source, seq<Event>))
    ensures r.0 == folder.(items := r.0.items)
    ensures |folder.items| <= |r.0.items| && |r.1| >= 3
    ensures var files := env.listFiles(folder.origin);
      var added := r.0.items[|folder.items|..];
      && r.0.items[..|folder.items|] == folder.items
      && Origins(added) == IngestibleFiles(env, files)
      && (forall i :: 0 <= i < |added| ==> PlainFile(added[i]))
      && Count(r.1, Commit) == |added| / ADD_COMMIT_EVERY + 1
      && Count(r.1, Notify) == |added| / ADD_COMMIT_EVERY + 1
      && Count(r.1, Begin) == Count(r.1, Commit)
      && Inserts(r.1) == FolderInserts(env, files, 0)
      && Deletes(r.1) == []
      && r.1[0] == Begin && r.1[|r.1| - 2..] == [Commit, Notify]
  {
    var files := env.listFiles(folder.origin);
    var (items, tr) := Ingest(env, files, 0, 0);
    IngestFacts(env, files, 0, 0);
    var all := [Begin] + tr + [Commit, Notify];
    Append3([Begin], tr, [Commit, Notify]);
    assert [Commit, Notify][1..] == [Notify];
    assert (folder.items + items)[|folder.items|..] == items;
    (folder.(items := folder.items + items), all)
  }

  /** The batching example: twelve ingestible files give three commits (after 5, after 10, final). */
  lemma TwelveFilesThreeCommits(env: Env, folder: Source)
    requires |IngestibleFiles(env, env.listFiles(folder.origin))| == 12
    ensures Count(AddFolder(env, folder).1, Commit) == 3
  {
    var r := AddFolder(env, folder);
    assert |Origins(r.0.items[|folder.items|..])| == 12;
  }

  /* ------------------------------------------------------ delete */

  /** `findIndex` by uuid: the first entry with that uuid. */
  function FindIndex(docs: seq<Source>, id: string): (r: Option<nat>)
    ensures r.Some? ==> r.value < |docs| && docs[r.value].uuid == id
    ensures r.Some? ==> forall j :: 0 <= j < r.value ==> docs[j].uuid != id
    ensures r.None? ==> forall j :: 0 <= j < |docs| ==> docs[j].uuid != id
  {
    if |docs| == 0 then None
    else if docs[0].uuid == id then Some(0)
    else match FindIndex(docs[1..], id)
      case None => None
      case Some(j) => Some(j + 1)
  }

  function Uuids(items: seq<Source>): (r: seq<string>)
    ensures |r| == |items|
    ensures forall i :: 0 <= i < |items| ==> r[i] == items[i].uuid
  {
    if |items| == 0 then [] else [items[0].uuid] + Uuids(items[1..])
  }

  /**
    The deletion loop: each id is deleted from the store; while the document
    still has items, the matching item is spliced out and counted, and every
    `DELETE_COMMIT_EVERY`-th counted removal commits, calls back and begins.
   */
  function DeleteItems(ids: seq<string>, items: seq<Source>, deleted: nat, notify: bool): (r: (seq<Source>, seq<Event>))
    decreases |ids|
  {
    if |ids| == 0 then (items, [])
    else
      var id := ids[0];
      if |items| > 0 && FindIndex(items, id).Some? then
        var n := deleted + 1;
        var (rest, tr) := DeleteItems(ids[1..], RemoveAt(items, FindIndex(items, id).value), n, notify);
        (rest, [Delete(id)] + Batch(n, DELETE_COMMIT_EVERY, notify) + tr)
      else
        var (rest, tr) := DeleteItems(ids[1..], items, deleted, notify);
        (rest, [Delete(id)] + tr)
  }

  /**
    Deleting a folder's own item ids finds every item in turn (always at the
    front), so all of them are removed, one store delete each in item order,
    with one commit per `DELETE_COMMIT_EVERY` removals counted from `deleted`.
   */
  lemma {:induction false} DeleteItemsFacts(items: seq<Source>, deleted: nat, notify: bool)
    ensures var (rest, tr) := DeleteItems(Uuids(items), items, deleted, notify);
      && rest == []
      && Deletes(tr) == Uuids(items)
      && Count(tr, Commit) == (deleted + |items|) / DELETE_COMMIT_EVERY - deleted / DELETE_COMMIT_EVERY
      && Count(tr, Notify) == (if notify then Count(tr, Commit) else 0)
      && Count(tr, Begin) == Count(tr, Commit)
      && Inserts(tr) == []
  {
    if |items| > 0 {
      var ids := Uuids(items);
      assert ids[1..] == Uuids(items[1..]);
      assert FindIndex(items, ids[0]) == Some(0);
      assert RemoveAt(items, 0) == items[1..];
      DeleteItemsFacts(items[1..], deleted + 1, notify);
      var (rest, tr) := DeleteItems(ids[1..], items[1..], deleted + 1, notify);
      var b := Batch(deleted + 1, DELETE_COMMIT_EVERY, notify);
      Append3([Delete(ids[0])], b, tr);
      BatchFacts(deleted + 1, DELETE_COMMIT_EVERY, notify);
      DivStep(deleted, DELETE_COMMIT_EVERY);
      assert Deletes([Delete(ids[0])]) == [ids[0]];
      assert Uuids(items) == [ids[0]] + Uuids(items[1..]);
    }
  }

  /** What a successful delete leaves: the remaining documents, the removed source (its items emptied) and the events. */
  datatype Deletion = Deletion(docs: seq<Source>, removed: Source, trace: seq<Event>)

  /**
    delete: find the document, delete from the store either each of its items
    (a folder with items) or its own uuid, remove the entry, then a final
    commit and callback. An unknown id raises `NotFound` before any store call.
   */
  function DeleteDoc(docs: seq<Source>, docId: string, notify: bool): (r: Result<Deletion, DocError>)
    ensures r.Failure? <==> FindIndex(docs, docId).None?
    ensures r.Failure? ==> r.error == NotFound
    ensures r.Success? ==>
      var i := FindIndex(docs, docId).value;
      && r.value.docs == RemoveAt(docs, i)
      && r.value.removed == docs[i].(items := [])
  {
    match FindIndex(docs, docId)
    case None => Failure(NotFound)
    case Some(i) =>
      var doc := docs[i];
      var ids := if |doc.items| > 0 then Uuids(doc.items) else [docId];
      var (rest, tr) := DeleteItems(ids, doc.items, 0, notify);
      DeleteItemsFacts(doc.items, 0, notify);
      DeleteItemsLeaf(docId, notify);
      Success(Deletion(RemoveAt(docs, i), doc.(items := rest), [Begin] + tr + [Commit] + Callback(notify)))
  }

  /** Deleting a folder with K items: K store deletes of the item uuids and floor(K/10)+1 commits. */
  lemma DeleteFolder(docs: seq<Source>, docId: string, notify: bool)
    requires FindIndex(docs, docId).Some?
    requires |docs[FindIndex(docs, docId).value].items| > 0
    ensures var doc := docs[FindIndex(docs, docId).value];
      var tr := DeleteDoc(docs, docId, notify).value.trace;
      var k := |doc.items|;
      && Deletes(tr) == Uuids(doc.items)
      && Count(tr, Commit) == k / DELETE_COMMIT_EVERY + 1
      && Count(tr, Notify) == (if notify then k / DELETE_COMMIT_EVERY + 1 else 0)
      && Count(tr, Begin) == Count(tr, Commit)
      && Inserts(tr) == []
  {
    var doc := docs[FindIndex(docs, docId).value];
    var (rest, tr) := DeleteItems(Uuids(doc.items), doc.items, 0, notify);
    DeleteItemsFacts(doc.items, 0, notify);
    TraceWrapFacts(tr, notify);
  }

  /** Deleting a leaf (or an empty folder): one store delete of its own uuid, one commit. */
  lemma DeleteLeaf(docs: seq<Source>, docId: string, notify: bool)
    requires FindIndex(docs, docId).Some?
    requires docs[FindIndex(docs, docId).value].items == []
    ensures DeleteDoc(docs, docId, notify).value.trace == [Begin, Delete(docId), Commit] + Callback(notify)
  {
    DeleteItemsLeaf(docId, notify);
  }

  lemma DeleteItemsLeaf(docId: string, notify: bool)
    ensures DeleteItems([docId], [], 0, notify) == ([], [Delete(docId)])
  {
    assert [docId][1..] == [];
    assert DeleteItems([], [], 0, notify) == ([], []);
    assert [Delete(docId)] + [] == [Delete(docId)];
  }

  lemma TraceWrapFacts(tr: seq<Event>, notify: bool)
    ensures var all := [Begin] + tr + [Commit] + Callback(notify);
      && Count(all, Commit) == Count(tr, Commit) + 1
      && Count(all, Notify) == Count(tr, Notify) + (if notify then 1 else 0)
      && Count(all, Begin) == Count(tr, Begin) + 1
      && Deletes(all) == Deletes(tr)
      && Inserts(all) == Inserts(tr)
  {
    var c := Callback(notify);
    Append3([Begin] + tr, [Commit], c);
    Append3([Begin], tr, []);
    assert [Begin] + tr + [] == [Begin] + tr;
  }

  /* ------------------------------------------------------ add */

  /** The registry after an operation, the events it emitted, and what it returned or raised. */
  datatype Outcome = Outcome(docs: seq<Source>, trace: seq<Event>, result: Result<string, DocError>)

  /**
    add: an existing uuid is first deleted (without callback) and its source
    object reused, keeping its type and origin; a folder is registered
    immediately, announced, then ingested; any other source is registered
    only once addDocument has succeeded. An error of addDocument propagates
    and leaves whatever the upsert-delete already changed.
   */
  function Add(env: Env, docs: seq<Source>, uuid: string, kind: SourceType, origin: string): (r: Outcome)
    ensures r.result.Success? ==> r.result.value == uuid
    ensures kind == Folder ==> r.result.Success?
  {
    var (docs1, source, pre) :=
      match DeleteDoc(docs, uuid, false)
      case Success(d) => (d.docs, d.removed, d.trace)
      case Failure(_) => (docs, NewSource(uuid, kind, origin), []);
    if kind == Folder then
      var (folder, tr) := AddFolder(env, source);
      Outcome(docs1 + [folder], pre + [Notify] + tr, Success(source.uuid))
    else
      match AddDocument(env, source, true)
      case Failure(e) => Outcome(docs1, pre, Failure(e))
      case Success((s, tr)) => Outcome(docs1 + [s], pre + tr, Success(s.uuid))
  }

  /** Adding a new leaf: registered at the end only on success, after its inserts; on failure nothing changes. */
  lemma AddNewLeaf(env: Env, docs: seq<Source>, uuid: string, kind: SourceType, origin: string)
    requires FindIndex(docs, uuid).None? && kind != Folder
    ensures var r := Add(env, docs, uuid, kind, origin);
      var src := NewSource(uuid, kind, origin);
      && (r.result.Failure? <==> !Ingestible(env, kind, origin))
      && (r.result.Failure? ==> r.docs == docs && r.trace == [] && r.result == AddDocument(env, src, true).PropagateFailure())
      && (r.result.Success? ==>
            var (s, tr) := AddDocument(env, src, true).value;
            r.docs == docs + [s] && r.trace == tr && s.uuid == uuid && r.trace[|r.trace| - 1] == Notify)
  {
  }

  /** Adding a new folder: registered at once and announced before any insert, then ingested. */
  lemma AddNewFolder(env: Env, docs: seq<Source>, uuid: string, origin: string)
    requires FindIndex(docs, uuid).None?
    ensures var r := Add(env, docs, uuid, Folder, origin);
      var (folder, tr) := AddFolder(env, NewSource(uuid, Folder, origin));
      && r.docs == docs + [folder]
      && r.trace == [Notify] + tr
      && Count(r.trace, Notify) == |folder.items| / ADD_COMMIT_EVERY + 2
  {
    var (folder, tr) := AddFolder(env, NewSource(uuid, Folder, origin));
    CountAppend([Notify], tr, Notify);
    assert folder.items[0..] == folder.items;
  }

  /**
    Re-adding an existing uuid: the old entry is deleted first (its store
    rows with it) and its source reused, so the type and origin passed in
    are ignored; the new entry goes last.
   */
  lemma AddExisting(env: Env, docs: seq<Source>, uuid: string, kind: SourceType, origin: string)
    requires FindIndex(docs, uuid).Some?
    ensures var i := FindIndex(docs, uuid).value;
      var r := Add(env, docs, uuid, kind, origin);
      var prior := docs[i].(items := []);
      var del := DeleteDoc(docs, uuid, false).value;
      && r.trace[..|del.trace|] == del.trace
      && (kind == Folder ==> r.docs == RemoveAt(docs, i) + [AddFolder(env, prior).0])
      && (kind != Folder && r.result.Failure? ==> r.docs == RemoveAt(docs, i))
      && (kind != Folder && r.result.Success? ==>
            r.docs == RemoveAt(docs, i) + [AddDocument(env, prior, true).value.0]
            && r.docs[|r.docs| - 1].kind == docs[i].kind
            && r.docs[|r.docs| - 1].origin == docs[i].origin)
  {
  }

  /** No two entries share a uuid. */
  predicate UniqueIds(docs: seq<Source>) {
    forall i, j :: 0 <= i < j < |docs| ==> docs[i].uuid != docs[j].uuid
  }

  lemma RemoveAtKeepsUnique(docs: seq<Source>, i: nat)
    requires UniqueIds(docs) && i < |docs|
    ensures UniqueIds(RemoveAt(docs, i))
    ensures forall j :: 0 <= j < |docs| - 1 ==> RemoveAt(docs, i)[j].uuid != docs[i].uuid
  {
  }

  /** The registry add starts from: without the entry it replaces, if any. */
  function Remaining(docs: seq<Source>, uuid: string): seq<Source> {
    match DeleteDoc(docs, uuid, false)
    case Success(d) => d.docs
    case Failure(_) => docs
  }

  /** add leaves the remaining registry in place and, on success, appends one entry with the uuid. */
  lemma AddShape(env: Env, docs: seq<Source>, uuid: string, kind: SourceType, origin: string)
    ensures var r := Add(env, docs, uuid, kind, origin);
      var rest := Remaining(docs, uuid);
      && (r.result.Success? ==> |r.docs| == |rest| + 1 && r.docs[..|rest|] == rest && r.docs[|rest|].uuid == uuid)
      && (r.result.Failure? ==> r.docs == rest)
  {
    var r := Add(env, docs, uuid, kind, origin);
    var rest := Remaining(docs, uuid);
    var source := match DeleteDoc(docs, uuid, false)
      case Success(d) => d.removed
      case Failure(_) => NewSource(uuid, kind, origin);
    assert source.uuid == uuid;
    if kind == Folder {
      assert r.docs == rest + [AddFolder(env, source).0];
    } else if AddDocument(env, source, true).Success? {
      assert r.docs == rest + [AddDocument(env, source, true).value.0];
    }
  }

  /** add keeps the registry free of duplicate uuids; after a successful add exactly one entry has the uuid. */
  lemma AddKeepsUnique(env: Env, docs: seq<Source>, uuid: string, kind: SourceType, origin: string)
    requires UniqueIds(docs)
    ensures var r := Add(env, docs, uuid, kind, origin);
      && UniqueIds(r.docs)
      && (r.result.Success? ==> |r.docs| > 0 && r.docs[|r.docs| - 1].uuid == uuid
                                && forall j :: 0 <= j < |r.docs| - 1 ==> r.docs[j].uuid != uuid)
  {
    var r := Add(env, docs, uuid, kind, origin);
    var rest := Remaining(docs, uuid);
    if FindIndex(docs, uuid).Some? {
      RemoveAtKeepsUnique(docs, FindIndex(docs, uuid).value);
    }
    assert UniqueIds(rest);
    assert forall j :: 0 <= j < |rest| ==> rest[j].uuid != uuid;
    AddShape(env, docs, uuid, kind, origin);
    if r.result.Success? {
      forall j | 0 <= j < |r.docs| - 1
        ensures r.docs[j] == rest[j]
      {
        assert r.docs[..|rest|][j] == r.docs[j];
      }
    }
  }

  /** delete keeps the registry free of duplicates, and the deleted uuid is gone afterwards. */
  lemma DeleteKeepsUnique(docs: seq<Source>, docId: string, notify: bool)
    requires UniqueIds(docs) && FindIndex(docs, docId).Some?
    ensures var d := DeleteDoc(docs, docId, notify).value;
      && UniqueIds(d.docs) && |d.docs| == |docs| - 1
      && forall j :: 0 <= j < |d.docs| ==> d.docs[j].uuid != docId
  {
    RemoveAtKeepsUnique(docs, FindIndex(docs, docId).value);
  }
}
