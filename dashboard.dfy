/**
 * The playlist engine of the dashboard page (`DashboardPage.tsx`).
 *
 * The page keeps the fetched playlist sorted by `posicao`, three counters
 * derived from it, a search term and a current page. Its handlers do not
 * change the playlist themselves: each builds the request it sends to the
 * API (one new record, or the whole list for a bulk replace) and then
 * reloads. Here every handler is a function from the current playlist and the
 * dialog results to the `Outcome` it sends, and the page state is the class
 * `Dashboard`.
 */
module DashboardPage {
  import opened Common
  import opened Text
  import ListView

  const RecordsPerPage: nat := 5
  const MsPerSecond: int := 1000
  const MsPerMinute: int := 60000
  const VideosFolder: string := "videos/"
  const Mp4Extension: string := ".mp4"

  /** One playlist entry (`KioskMedia`); `duracao` is in milliseconds,
      `posicao` is the 1-based playback position. */
  datatype MediaItem = MediaItem(
    id: int,
    chave: string,
    fonte: string,
    tipo: string,
    duracao: int,
    posicao: int,
    ativo: bool)

  // ===========================================================================
  // Invariants of a playlist

  predicate SortedByPosicao(s: seq<MediaItem>)
  {
    forall i, j :: 0 <= i < j < |s| ==> s[i].posicao <= s[j].posicao
  }

  /** The positions are exactly 1..N, in list order. */
  predicate Contiguous(s: seq<MediaItem>)
  {
    forall i :: 0 <= i < |s| ==> s[i].posicao == i + 1
  }

  predicate UniqueIds(s: seq<MediaItem>)
  {
    forall i, j :: 0 <= i < j < |s| ==> s[i].id != s[j].id
  }

  function Ids(s: seq<MediaItem>): seq<int>
  {
    seq(|s|, i requires 0 <= i < |s| => s[i].id)
  }

  function Posicoes(s: seq<MediaItem>): seq<int>
  {
    seq(|s|, i requires 0 <= i < |s| => s[i].posicao)
  }

  /** A contiguous playlist is sorted by position, and its positions are 1..N. */
  lemma ContiguousIsSorted(s: seq<MediaItem>)
    requires Contiguous(s)
    ensures SortedByPosicao(s)
    ensures Posicoes(s) == seq(|s|, i => i + 1)
  {
  }

  // ===========================================================================
  // loadPlaylist: sort by posicao, then the three counters

  /** `data.sort((a, b) => a.posicao - b.posicao)`, in place (an insertion sort). */
  method SortByPosicao(a: array<MediaItem>)
    modifies a
    ensures SortedByPosicao(a[..])
    ensures multiset(a[..]) == multiset(old(a[..]))
  {
    var i := 0;
    while i < a.Length
      invariant 0 <= i <= a.Length
      invariant SortedByPosicao(a[..i])
      invariant multiset(a[..]) == multiset(old(a[..]))
    {
      InsertIntoSorted(a, i);
      i := i + 1;
    }
    assert a[..a.Length] == a[..];
  }

  /** Moves `a[i]` left until `a[..i+1]` is sorted. */
  method InsertIntoSorted(a: array<MediaItem>, i: nat)
    requires i < a.Length
    requires SortedByPosicao(a[..i])
    modifies a
    ensures SortedByPosicao(a[..i + 1])
    ensures multiset(a[..]) == multiset(old(a[..]))
  {
    var j := i;
    while j > 0 && a[j - 1].posicao > a[j].posicao
      invariant 0 <= j <= i
      invariant multiset(a[..]) == multiset(old(a[..]))
      invariant forall k, l :: 0 <= k < l <= i && k != j && l != j ==> a[k].posicao <= a[l].posicao
      invariant forall l :: j < l <= i ==> a[j].posicao < a[l].posicao
    {
      SwapWithPrevious(a, j);
      j := j - 1;
    }
  }

  /** Exchanges `a[j - 1]` and `a[j]`. */
  method SwapWithPrevious(a: array<MediaItem>, j: nat)
    requires 0 < j < a.Length
    modifies a
    ensures a[j - 1] == old(a[j]) && a[j] == old(a[j - 1])
    ensures forall k :: 0 <= k < a.Length && k != j - 1 && k != j ==> a[k] == old(a[k])
    ensures multiset(a[..]) == multiset(old(a[..]))
  {
    a[j - 1], a[j] := a[j], a[j - 1];
  }

  predicate IsAtivo(m: MediaItem)
  {
    m.ativo
  }

  /** `totalAtivos`: `filter(x => x.ativo).length`. */
  function CountActive(s: seq<MediaItem>): (n: nat)
    ensures n <= |s|
  {
    |ListView.Filter(s, IsAtivo)|
  }

  /** `reduce((acc, item) => acc + item.duracao, 0)` */
  function SumDuracao(s: seq<MediaItem>): int
  {
    if s == [] then 0 else s[0].duracao + SumDuracao(s[1..])
  }

  /** The sum agrees with `reduce`'s first-to-last accumulation: the total is
      the total of all records but the last, plus the last one's duration. */
  lemma SumDuracaoIsReduce(s: seq<MediaItem>)
    requires s != []
    ensures SumDuracao(s) == SumDuracao(s[..|s| - 1]) + s[|s| - 1].duracao
  {
    var last := [s[|s| - 1]];
    assert s[..|s| - 1] + last == s;
    SumDuracaoConcat(s[..|s| - 1], last);
    assert last[1..] == [];
  }

  /** With no negative durations the total is never negative and is at least
      the duration of each record. */
  lemma {:induction false} SumDuracaoBounds(s: seq<MediaItem>)
    requires forall i :: 0 <= i < |s| ==> s[i].duracao >= 0
    ensures SumDuracao(s) >= 0
    ensures forall i :: 0 <= i < |s| ==> s[i].duracao <= SumDuracao(s)
  {
    if s != [] {
      assert forall i :: 1 <= i < |s| ==> s[i] == s[1..][i - 1];
      SumDuracaoBounds(s[1..]);
    }
  }

  /** `totalTempoMinutos`: `Math.floor(tempoTotalMs / 60000)`. */
  function TotalMinutes(s: seq<MediaItem>): (m: int)
    ensures m * MsPerMinute <= SumDuracao(s) < (m + 1) * MsPerMinute
  {
    SumDuracao(s) / MsPerMinute
  }

  lemma {:induction false} SumDuracaoConcat(a: seq<MediaItem>, b: seq<MediaItem>)
    ensures SumDuracao(a + b) == SumDuracao(a) + SumDuracao(b)
  {
    if a == [] {
      assert a + b == b;
    } else {
      assert (a + b)[1..] == a[1..] + b;
      SumDuracaoConcat(a[1..], b);
    }
  }

  /** Taking the item at position k out of a list takes its duration out of the sum. */
  lemma SumDuracaoRemove(t: seq<MediaItem>, k: nat)
    requires k < |t|
    ensures SumDuracao(t) == t[k].duracao + SumDuracao(t[..k] + t[k + 1..])
  {
    var front, back := t[..k], t[k + 1..];
    var tail := [t[k]] + back;
    assert front + tail == t;
    assert tail[1..] == back;
    assert SumDuracao(tail) == t[k].duracao + SumDuracao(back);
    SumDuracaoConcat(front, tail);
    SumDuracaoConcat(front, back);
  }

  /** Taking the item at position k out of a list takes one copy of it out of the multiset. */
  lemma MultisetRemove(t: seq<MediaItem>, k: nat)
    requires k < |t|
    ensures multiset(t[..k] + t[k + 1..]) == multiset(t) - multiset{t[k]}
  {
    assert t == t[..k] + [t[k]] + t[k + 1..];
    assert multiset(t) == multiset(t[..k]) + multiset([t[k]]) + multiset(t[k + 1..]);
    assert multiset(t[..k] + t[k + 1..]) == multiset(t[..k]) + multiset(t[k + 1..]);
  }

  /** The total duration does not depend on the order of the items. */
  lemma {:induction false} SumDuracaoPermutation(s: seq<MediaItem>, t: seq<MediaItem>)
    requires multiset(s) == multiset(t)
    ensures SumDuracao(s) == SumDuracao(t)
  {
    if s == [] {
      assert |t| == |multiset(t)| == 0;
    } else {
      var x := s[0];
      assert x in multiset(s);
      assert x in t;
      var k :| 0 <= k < |t| && t[k] == x;
      var rest := t[..k] + t[k + 1..];
      MultisetRemove(s, 0);
      MultisetRemove(t, k);
      assert s[..0] + s[1..] == s[1..];
      assert multiset(s[1..]) == multiset(rest);
      SumDuracaoPermutation(s[1..], rest);
      SumDuracaoRemove(t, k);
    }
  }

  /** The number of active items does not depend on the order of the items. */
  lemma CountActivePermutation(s: seq<MediaItem>, t: seq<MediaItem>)
    requires multiset(s) == multiset(t)
    ensures CountActive(s) == CountActive(t)
  {
    ListView.FilterPermutation(s, t, IsAtivo);
    assert |multiset(ListView.Filter(s, IsAtivo))| == |multiset(ListView.Filter(t, IsAtivo))|;
  }

  // ===========================================================================
  // filteredPlaylist: case-insensitive search over chave and fonte

  predicate MatchesSearch(item: MediaItem, term: string)
  {
    || Includes(Lower(item.chave), Lower(term))
    || Includes(Lower(item.fonte), Lower(term))
  }

  function SearchPredicate(term: string): MediaItem -> bool
  {
    (item: MediaItem) => MatchesSearch(item, term)
  }

  function FilterPlaylist(s: seq<MediaItem>, term: string): (r: seq<MediaItem>)
    ensures |r| <= |s|
    ensures forall x :: x in r <==> x in s && MatchesSearch(x, term)
  {
    ListView.Filter(s, SearchPredicate(term))
  }

  /** The search keeps exactly the matching items, in their playlist order. */
  lemma FilterPlaylistSelects(s: seq<MediaItem>, term: string)
    ensures forall x :: x in FilterPlaylist(s, term) <==> x in s && MatchesSearch(x, term)
    ensures ListView.IsSubsequence(FilterPlaylist(s, term), s)
  {
    ListView.FilterIsSubsequence(s, SearchPredicate(term));
  }

  /** The empty search term shows the whole playlist. */
  lemma EmptySearchShowsAll(s: seq<MediaItem>)
    ensures FilterPlaylist(s, "") == s
  {
    forall x | x in s
      ensures SearchPredicate("")(x)
    {
      IncludesEmpty(Lower(x.chave));
    }
    ListView.FilterKeepsAll(s, SearchPredicate(""));
  }

  /** The case of the search term does not matter. */
  lemma SearchIgnoresCase(s: seq<MediaItem>, term: string)
    ensures FilterPlaylist(s, term) == FilterPlaylist(s, Lower(term))
  {
    LowerIdempotent(term);
    ListView.FilterAgreeing(s, SearchPredicate(term), SearchPredicate(Lower(term)));
  }

  // ===========================================================================
  // handleAdicionarVideo: the new record

  /** `Math.max(...playlist.map(p => p.id))` */
  function MaxId(s: seq<MediaItem>): (m: int)
    requires s != []
    ensures forall x :: x in s ==> x.id <= m
    ensures exists x :: x in s && x.id == m
  {
    if |s| == 1 then s[0].id
    else
      var rest := MaxId(s[1..]);
      if s[0].id >= rest then s[0].id else rest
  }

  /** The id of a new record: one more than the largest id, or 1 for an empty list. */
  function NextId(s: seq<MediaItem>): (id: int)
    ensures forall x :: x in s ==> x.id < id
    ensures s == [] ==> id == 1
    ensures s != [] ==> exists x :: x in s && x.id == id - 1
  {
    if |s| > 0 then MaxId(s) + 1 else 1
  }

  /** `novoItem`, built once the upload has returned the stored file's `url`. */
  function NewItem(s: seq<MediaItem>, chave: string, segundos: int, url: string): (r: MediaItem)
    ensures s == [] ==> r.id == 1
    ensures s != [] ==> r.id == MaxId(s) + 1
    ensures forall x :: x in s ==> x.id != r.id
    ensures r.chave == chave && r.fonte == url && r.tipo == "video" && r.ativo
    ensures r.duracao == segundos * MsPerSecond && r.posicao == |s| + 1
  {
    MediaItem(NextId(s), chave, url, "video", segundos * MsPerSecond, |s| + 1, true)
  }

  /** Appending the new record keeps ids unique and positions contiguous. */
  lemma NewItemKeepsInvariants(s: seq<MediaItem>, chave: string, segundos: int, url: string)
    ensures UniqueIds(s) ==> UniqueIds(s + [NewItem(s, chave, segundos, url)])
    ensures Contiguous(s) ==> Contiguous(s + [NewItem(s, chave, segundos, url)])
  {
    var t := s + [NewItem(s, chave, segundos, url)];
    assert forall i :: 0 <= i < |s| ==> t[i] == s[i] && s[i] in s;
  }

  /** Ids `[2, 5, 7]` give the new record id 8. */
  lemma NextIdExample()
    ensures NextId([MediaItem(2, "a", "", "video", 0, 1, true),
                    MediaItem(5, "b", "", "video", 0, 2, true),
                    MediaItem(7, "c", "", "video", 0, 3, true)]) == 8
  {
  }

  /** What the dashboard's handlers send. */
  datatype Outcome =
    | NoRequest                          // dialog dismissed or deletion not confirmed
    | ValidationError                    // one rejected confirm: `preConfirm` returns false, the edit
                                         // dialog shows its validation message and stays open for
                                         // another attempt or a cancel
    | UploadError                        // the multipart upload was rejected
    | PostItem(item: MediaItem)          // POST /Playlist/item: one new record
    | PostList(items: seq<MediaItem>)    // POST /Playlist: the whole list, replacing it

  /** The values typed in the second add dialog; `segundos` is the parsed duration field. */
  datatype AddForm = AddForm(chave: string, segundos: int)

  /** `handleAdicionarVideo`: `form` is None when a dialog was dismissed, and
      `upload` is the response of `POST /Playlist/upload`. */
  function AddVideo(playlist: seq<MediaItem>, form: Option<AddForm>, upload: Response<string>): (r: Outcome)
    ensures r.NoRequest? || r.UploadError? || r.PostItem?
    ensures r.NoRequest? <==> form.None? || form.value.chave == ""
    ensures r.UploadError? <==> form.Some? && form.value.chave != "" && upload.Failed?
    ensures r.PostItem? ==>
              && form.Some? && upload.Ok?
              && r.item.chave == form.value.chave
              && r.item.fonte == upload.data
              && r.item.tipo == "video"
              && r.item.ativo
              && r.item.duracao == form.value.segundos * MsPerSecond
              && r.item.posicao == |playlist| + 1
              && r.item.id == NextId(playlist)
              && (forall x :: x in playlist ==> x.id < r.item.id)
  {
    match form
    case None => NoRequest
    case Some(f) =>
      if f.chave == "" then NoRequest
      else
        match upload
        case Failed => UploadError
        case Ok(url) => PostItem(NewItem(playlist, f.chave, f.segundos, url))
  }

  // ===========================================================================
  // handleEditarVideo: splitting and rebuilding `fonte`

  /** The two choices of the folder select. */
  datatype Folder = Videos | Root

  function Prefix(f: Folder): string
  {
    match f
    case Videos => VideosFolder
    case Root => ""
  }

  datatype SourceParts = SourceParts(pasta: Folder, nomeArquivo: string)

  /** `fonte` without a trailing ".mp4": a path ending in ".mp4" is the
      stripped path followed by ".mp4"; any other path is kept. */
  function StripMp4(fonte: string): (base: string)
    ensures EndsWith(fonte, Mp4Extension) ==> base + Mp4Extension == fonte
    ensures !EndsWith(fonte, Mp4Extension) ==> base == fonte
  {
    if EndsWith(fonte, Mp4Extension) then fonte[..|fonte| - |Mp4Extension|] else fonte
  }

  /** `pastaInicial` and `nomeArquivoInicial` of the edit dialog. The folder is
      "videos/" exactly when the stripped path starts with it, and folder and
      file name together give back the stripped path. */
  function SplitFonte(fonte: string): (p: SourceParts)
    ensures p.pasta == Videos <==> StartsWith(StripMp4(fonte), VideosFolder)
    ensures Prefix(p.pasta) + p.nomeArquivo == StripMp4(fonte)
  {
    var base := StripMp4(fonte);
    if StartsWith(base, VideosFolder) then SourceParts(Videos, RemoveFirst(base, VideosFolder))
    else SourceParts(Root, base)
  }

  /** `${pasta}${nomeArquivo}.mp4`: a ".mp4" path in the chosen folder whose
      stripped form is folder and file name. */
  function BuildFonte(pasta: Folder, nomeArquivo: string): (fonte: string)
    ensures EndsWith(fonte, Mp4Extension)
    ensures StartsWith(fonte, Prefix(pasta))
    ensures StripMp4(fonte) == Prefix(pasta) + nomeArquivo
  {
    var fonte := Prefix(pasta) + nomeArquivo + Mp4Extension;
    assert fonte[..|Prefix(pasta)|] == Prefix(pasta);
    assert fonte[|fonte| - |Mp4Extension|..] == Mp4Extension;
    assert fonte[..|fonte| - |Mp4Extension|] == Prefix(pasta) + nomeArquivo;
    fonte
  }

  /** Splitting a ".mp4" path and rebuilding it gives the same path. */
  lemma SplitThenBuild(fonte: string)
    requires EndsWith(fonte, Mp4Extension)
    ensures BuildFonte(SplitFonte(fonte).pasta, SplitFonte(fonte).nomeArquivo) == fonte
  {
  }

  /** Building a path and splitting it gives back folder and file name, unless
      a root-folder file name itself starts with "videos/". */
  lemma BuildThenSplit(pasta: Folder, nomeArquivo: string)
    requires pasta == Root ==> !StartsWith(nomeArquivo, VideosFolder)
    ensures SplitFonte(BuildFonte(pasta, nomeArquivo)) == SourceParts(pasta, nomeArquivo)
  {
    var fonte := BuildFonte(pasta, nomeArquivo);
    assert EndsWith(fonte, Mp4Extension);
    assert StripMp4(fonte) == Prefix(pasta) + nomeArquivo;
    if pasta == Videos {
      assert StartsWith(StripMp4(fonte), VideosFolder);
    } else {
      assert StripMp4(fonte) == nomeArquivo;
    }
  }

  /** "videos/promo.mp4" splits into "videos/" and "promo"; "promo" in the root is "promo.mp4". */
  lemma SplitExample()
    ensures SplitFonte("videos/promo.mp4") == SourceParts(Videos, "promo")
    ensures BuildFonte(Root, "promo") == "promo.mp4"
  {
    assert BuildFonte(Videos, "promo") == "videos/promo.mp4";
    BuildThenSplit(Videos, "promo");
  }

  // ===========================================================================
  // handleEditarVideo: validation and the list update

  /** The values in the edit dialog when it is confirmed; `segundos` is
      `parseInt` of the duration field, None when that is NaN. */
  datatype EditForm = EditForm(chave: string, pasta: Folder, nomeArquivo: string, segundos: Option<int>)

  /** The values the edit dialog opens with: the record's `chave`, its path
      split into folder and file name (the folder preselected is "videos/"
      exactly when the stripped path starts with it; the two rebuild the path
      when it ends in ".mp4"), and its duration in whole seconds, rounded down. */
  function EditPrefill(item: MediaItem): (f: EditForm)
    ensures f.chave == item.chave
    ensures f.pasta == Videos <==> StartsWith(StripMp4(item.fonte), VideosFolder)
    ensures Prefix(f.pasta) + f.nomeArquivo == StripMp4(item.fonte)
    ensures EndsWith(item.fonte, Mp4Extension) ==> BuildFonte(f.pasta, f.nomeArquivo) == item.fonte
    ensures f.segundos.Some?
    ensures f.segundos.value * MsPerSecond <= item.duracao < (f.segundos.value + 1) * MsPerSecond
  {
    var parts := SplitFonte(item.fonte);
    EditForm(item.chave, parts.pasta, parts.nomeArquivo, Some(item.duracao / MsPerSecond))
  }

  /** `preConfirm`: None when the validation message is shown, otherwise the edited record. */
  function ConfirmEdit(item: MediaItem, f: EditForm): (r: Option<MediaItem>)
    ensures r.Some? <==> Trim(f.chave) != "" && Trim(f.nomeArquivo) != "" && f.segundos.Some? && f.segundos.value > 0
    ensures r.Some? ==>
              && r.value.id == item.id
              && r.value.tipo == item.tipo
              && r.value.posicao == item.posicao
              && r.value.ativo == item.ativo
              && r.value.chave == Trim(f.chave)
              && r.value.fonte == BuildFonte(f.pasta, Trim(f.nomeArquivo))
              && r.value.duracao == f.segundos.value * MsPerSecond
  {
    var chave := Trim(f.chave);
    var nomeArquivo := Trim(f.nomeArquivo);
    if chave == [] || nomeArquivo == [] || f.segundos.None? || f.segundos.value <= 0 then None
    else Some(item.(chave := chave, fonte := BuildFonte(f.pasta, nomeArquivo), duracao := f.segundos.value * MsPerSecond))
  }

  /** Confirming the edit dialog as it opened gives back the record unchanged,
      for a record whose fields survive the dialog: a ".mp4" path, a whole
      number of seconds, and no surrounding blanks. */
  lemma EditUnchangedRoundTrip(item: MediaItem)
    requires EndsWith(item.fonte, Mp4Extension)
    requires item.duracao > 0 && item.duracao % MsPerSecond == 0
    requires item.chave != "" && Trim(item.chave) == item.chave
    requires SplitFonte(item.fonte).nomeArquivo != []
    requires Trim(SplitFonte(item.fonte).nomeArquivo) == SplitFonte(item.fonte).nomeArquivo
    ensures ConfirmEdit(item, EditPrefill(item)) == Some(item)
  {
    var f := EditPrefill(item);
    SplitThenBuild(item.fonte);
    assert f.segundos.value * MsPerSecond == item.duracao;
    assert Trim(f.chave) == item.chave;
    assert Trim(f.nomeArquivo) == f.nomeArquivo;
    assert BuildFonte(f.pasta, f.nomeArquivo) == item.fonte;
  }

  /** Reopening an edited record shows the seconds that were saved. */
  lemma EditSecondsRoundTrip(item: MediaItem, f: EditForm)
    requires ConfirmEdit(item, f).Some?
    ensures EditPrefill(ConfirmEdit(item, f).value).segundos == f.segundos
  {
    var v := f.segundos.value;
    var e := ConfirmEdit(item, f).value;
    assert e.duracao == v * MsPerSecond;
    assert (v * 1000) / 1000 == v;
  }

  /** `playlist.map(i => i.id === id ? edited : i)` */
  function ReplaceById(s: seq<MediaItem>, id: int, edited: MediaItem): (r: seq<MediaItem>)
    ensures |r| == |s|
    ensures forall i :: 0 <= i < |s| && s[i].id == id ==> r[i] == edited
    ensures forall i :: 0 <= i < |s| && s[i].id != id ==> r[i] == s[i]
  {
    seq(|s|, i requires 0 <= i < |s| => if s[i].id == id then edited else s[i])
  }

  /** Replacing an id that is not in the list changes nothing. */
  lemma ReplaceAbsentId(s: seq<MediaItem>, id: int, edited: MediaItem)
    requires forall x :: x in s ==> x.id != id
    ensures ReplaceById(s, id, edited) == s
  {
    assert forall i :: 0 <= i < |s| ==> s[i] in s;
  }

  /** An accepted edit of a record of the list replaces that record only:
      length, ids, positions and every other record stay as they were. */
  lemma EditReplacesOnlyThatItem(s: seq<MediaItem>, item: MediaItem, f: EditForm)
    requires item in s && UniqueIds(s)
    requires ConfirmEdit(item, f).Some?
    ensures var r := ReplaceById(s, item.id, ConfirmEdit(item, f).value);
            && |r| == |s|
            && ConfirmEdit(item, f).value in r
            && Ids(r) == Ids(s)
            && Posicoes(r) == Posicoes(s)
            && (forall i :: 0 <= i < |s| && s[i].id != item.id ==> r[i] == s[i])
            && UniqueIds(r)
            && (Contiguous(s) ==> Contiguous(r))
  {
    ReplaceKeepsShape(s, item, ConfirmEdit(item, f).value);
  }

  /** Replacing a record of the list by one with the same id and position keeps
      the ids, the positions and every other record. */
  lemma ReplaceKeepsShape(s: seq<MediaItem>, item: MediaItem, e: MediaItem)
    requires item in s && UniqueIds(s)
    requires e.id == item.id && e.posicao == item.posicao
    ensures var r := ReplaceById(s, item.id, e);
            && |r| == |s|
            && e in r
            && Ids(r) == Ids(s)
            && Posicoes(r) == Posicoes(s)
            && (forall i :: 0 <= i < |s| && s[i].id != item.id ==> r[i] == s[i])
            && UniqueIds(r)
            && (Contiguous(s) ==> Contiguous(r))
  {
    var r := ReplaceById(s, item.id, e);
    var k :| 0 <= k < |s| && s[k] == item;
    assert forall i :: 0 <= i < |s| && s[i].id == item.id ==> i == k;
    assert r[k] == e;
    assert Ids(r) == Ids(s);
    assert Posicoes(r) == Posicoes(s);
  }

  /** `handleEditarVideo`: `form` is None when the dialog was cancelled. */
  function EditVideo(playlist: seq<MediaItem>, item: MediaItem, form: Option<EditForm>): (r: Outcome)
    ensures r.NoRequest? || r.ValidationError? || r.PostList?
    ensures r.NoRequest? <==> form.None?
    ensures r.ValidationError? <==> form.Some? && ConfirmEdit(item, form.value).None?
    ensures r.PostList? ==>
              && ConfirmEdit(item, form.value).Some?
              && |r.items| == |playlist|
              && (forall i :: 0 <= i < |playlist| && playlist[i].id == item.id ==>
                    r.items[i] == ConfirmEdit(item, form.value).value)
              && (forall i :: 0 <= i < |playlist| && playlist[i].id != item.id ==>
                    r.items[i] == playlist[i])
  {
    match form
    case None => NoRequest
    case Some(f) =>
      match ConfirmEdit(item, f)
      case None => ValidationError
      case Some(edited) => PostList(ReplaceById(playlist, item.id, edited))
  }

  // ===========================================================================
  // handleDeletarVideo: remove by id, then renumber

  /** `map((i, index) => ({ ...i, posicao: index + 1 }))` */
  function Renumber(s: seq<MediaItem>): (r: seq<MediaItem>)
    ensures |r| == |s|
    ensures Contiguous(r)
    ensures forall i :: 0 <= i < |s| ==> r[i].id == s[i].id
    ensures Unnumbered(r) == Unnumbered(s)
  {
    seq(|s|, i requires 0 <= i < |s| => s[i].(posicao := i + 1))
  }

  /** The records with their position blanked: all fields but `posicao`. */
  function Unnumbered(s: seq<MediaItem>): seq<MediaItem>
  {
    seq(|s|, i requires 0 <= i < |s| => s[i].(posicao := 0))
  }

  function OtherId(id: int): MediaItem -> bool
  {
    (x: MediaItem) => x.id != id
  }

  /** `playlist.filter(i => i.id !== id)` followed by `Renumber`. After a
      delete no record has the deleted id, the positions are 1..N in list
      order, and the remaining records are those of the list with another id,
      in the same order, with all fields but `posicao` unchanged. */
  function RemoveById(s: seq<MediaItem>, id: int): (r: seq<MediaItem>)
    ensures forall x :: x in r ==> x.id != id
    ensures Contiguous(r)
    ensures Unnumbered(r) == Unnumbered(ListView.Filter(s, OtherId(id)))
    ensures ListView.IsSubsequence(ListView.Filter(s, OtherId(id)), s)
  {
    var kept := ListView.Filter(s, OtherId(id));
    KeptHaveOtherIds(kept, id);
    ListView.FilterIsSubsequence(s, OtherId(id));
    Renumber(kept)
  }

  /** Renumbering records that all have another id leaves none with that id. */
  lemma KeptHaveOtherIds(kept: seq<MediaItem>, id: int)
    requires forall x :: x in kept ==> OtherId(id)(x)
    ensures forall x :: x in Renumber(kept) ==> x.id != id
  {
    var r := Renumber(kept);
    forall x | x in r
      ensures x.id != id
    {
      var i :| 0 <= i < |r| && r[i] == x;
      assert kept[i] in kept;
    }
  }

  /** With unique ids, deleting a present id removes exactly one record. */
  lemma {:induction false} RemoveByIdLength(s: seq<MediaItem>, id: int)
    requires UniqueIds(s)
    requires exists x :: x in s && x.id == id
    ensures |RemoveById(s, id)| == |s| - 1
  {
    var rest := s[1..];
    assert UniqueIds(rest);
    if s[0].id == id {
      assert forall x :: x in rest ==> OtherId(id)(x) by {
        forall x | x in rest
          ensures x.id != id
        {
          var j :| 0 <= j < |rest| && rest[j] == x;
          assert s[j + 1] == x;
        }
      }
      ListView.FilterKeepsAll(rest, OtherId(id));
    } else {
      var x :| x in s && x.id == id;
      assert x in rest;
      RemoveByIdLength(rest, id);
    }
  }

  /** Three records, delete id 2: ids 1 and 3 remain, at positions 1 and 2. */
  lemma RemoveExample()
    ensures RemoveById([MediaItem(1, "a", "a.mp4", "video", 1000, 1, true),
                        MediaItem(2, "b", "b.mp4", "video", 1000, 2, true),
                        MediaItem(3, "c", "c.mp4", "video", 1000, 3, true)], 2)
         == [MediaItem(1, "a", "a.mp4", "video", 1000, 1, true),
             MediaItem(3, "c", "c.mp4", "video", 1000, 2, true)]
  {
    var s := [MediaItem(1, "a", "a.mp4", "video", 1000, 1, true),
              MediaItem(2, "b", "b.mp4", "video", 1000, 2, true),
              MediaItem(3, "c", "c.mp4", "video", 1000, 3, true)];
    assert s[1..] == [s[1], s[2]];
    assert s[1..][1..] == [s[2]];
    assert ListView.Filter(s, OtherId(2)) == [s[0], s[2]];
  }

  /** `handleDeletarVideo`: `confirmed` is the answer of the confirmation dialog. */
  function DeleteVideo(playlist: seq<MediaItem>, item: MediaItem, confirmed: bool): (r: Outcome)
    ensures r.NoRequest? || r.PostList?
    ensures r.PostList? <==> confirmed
    ensures r.PostList? ==>
              && (forall x :: x in r.items ==> x.id != item.id)
              && Contiguous(r.items)
              && Unnumbered(r.items) == Unnumbered(ListView.Filter(playlist, OtherId(item.id)))
  {
    if confirmed then
      PostList(RemoveById(playlist, item.id))
    else NoRequest
  }

  // ===========================================================================
  // The page state

  class Dashboard {
    var playlist: seq<MediaItem>
    var loading: bool
    var totalVideos: int
    var totalAtivos: int
    var totalTempoMinutos: int
    var searchTerm: string
    var currentPage: int

    ghost predicate Valid()
      reads this
    {
      currentPage >= 1 && 0 <= totalAtivos <= totalVideos
    }

    /** The initial `useState` values. */
    constructor ()
      ensures Valid()
      ensures playlist == [] && loading
      ensures totalVideos == 0 && totalAtivos == 0 && totalTempoMinutos == 0
      ensures searchTerm == "" && currentPage == 1
    {
      playlist := [];
      loading := true;
      totalVideos, totalAtivos, totalTempoMinutos := 0, 0, 0;
      searchTerm := "";
      currentPage := 1;
    }

    /** `loadPlaylist`, given the response of `GET /Playlist`. A failed fetch
        is only logged: the previous playlist and counters stay. */
    method LoadPlaylist(res: Response<seq<MediaItem>>)
      requires Valid()
      modifies this
      ensures Valid()
      ensures !loading
      ensures searchTerm == old(searchTerm) && currentPage == old(currentPage)
      ensures res.Failed? ==>
                && playlist == old(playlist)
                && totalVideos == old(totalVideos)
                && totalAtivos == old(totalAtivos)
                && totalTempoMinutos == old(totalTempoMinutos)
      ensures res.Ok? ==>
                && SortedByPosicao(playlist)
                && multiset(playlist) == multiset(res.data)
                && totalVideos == |res.data|
                && totalAtivos == CountActive(res.data)
                && totalTempoMinutos == TotalMinutes(res.data)
    {
      match res {
        case Ok(data) =>
          var a := new MediaItem[|data|](i requires 0 <= i < |data| => data[i]);
          assert a[..] == data;
          SortByPosicao(a);
          var sorted := a[..];
          CountActivePermutation(sorted, data);
          SumDuracaoPermutation(sorted, data);
          assert |sorted| == |multiset(sorted)| == |multiset(data)| == |data|;
          playlist := sorted;
          totalVideos := |sorted|;
          totalAtivos := CountActive(sorted);
          totalTempoMinutos := TotalMinutes(sorted);
        case Failed =>
      }
      loading := false;
    }

    /** `filteredPlaylist` */
    function Filtered(): (r: seq<MediaItem>)
      reads this
      ensures |r| <= |playlist|
      ensures forall x :: x in r <==> x in playlist && MatchesSearch(x, searchTerm)
    {
      FilterPlaylist(playlist, searchTerm)
    }

    /** `totalPages` */
    function PageCount(): (t: nat)
      reads this
      ensures t == 0 <==> Filtered() == []
      ensures |Filtered()| <= t * RecordsPerPage
      ensures t > 0 ==> (t - 1) * RecordsPerPage < |Filtered()|
    {
      ListView.TotalPagesIsCeiling(|Filtered()|, RecordsPerPage);
      ListView.TotalPages(|Filtered()|, RecordsPerPage)
    }

    /** `currentRecords`: the window [(currentPage-1)*5, currentPage*5) of the filtered list. */
    function CurrentRecords(): (r: seq<MediaItem>)
      reads this
      ensures |r| <= RecordsPerPage
      ensures currentPage >= 1 ==>
                r == Filtered()[Min((currentPage - 1) * RecordsPerPage, |Filtered()|)..
                                Min(currentPage * RecordsPerPage, |Filtered()|)]
    {
      var f := Filtered();
      if currentPage >= 1 then
        ListView.MulMonotone(0, currentPage - 1, RecordsPerPage);
        ListView.PageWindow(f, currentPage, RecordsPerPage);
        ListView.Page(f, currentPage, RecordsPerPage)
      else
        ListView.Page(f, currentPage, RecordsPerPage)
    }

    /** The search box's `onChange`: a new term always goes back to page 1. */
    method ChangeSearch(term: string)
      requires Valid()
      modifies this`searchTerm, this`currentPage
      ensures Valid()
      ensures searchTerm == term && currentPage == 1
    {
      searchTerm := term;
      currentPage := 1;
    }

    /** The "previous" button; a click on a disabled button does nothing. */
    method PreviousPage()
      requires Valid()
      requires !loading  // the pager is rendered only once loading has finished
      modifies this`currentPage
      ensures Valid()
      ensures currentPage == if ListView.CanGoBack(old(currentPage), PageCount()) then old(currentPage) - 1 else old(currentPage)
      ensures 1 <= old(currentPage) <= PageCount() ==> 1 <= currentPage <= PageCount()
    {
      if ListView.CanGoBack(currentPage, PageCount()) {
        currentPage := currentPage - 1;
      }
    }

    /** The "next" button; a click on a disabled button does nothing. */
    method NextPage()
      requires Valid()
      requires !loading  // the pager is rendered only once loading has finished
      modifies this`currentPage
      ensures Valid()
      ensures currentPage == if ListView.CanGoForward(old(currentPage), PageCount()) then old(currentPage) + 1 else old(currentPage)
      ensures 1 <= old(currentPage) <= PageCount() ==> 1 <= currentPage <= PageCount()
    {
      if ListView.CanGoForward(currentPage, PageCount()) {
        currentPage := currentPage + 1;
      }
    }
  }
}
