/**
 * The account page (`UsuariosPage.tsx`): a searchable, paged table of
 * operator accounts and an inline form that creates or edits one account.
 *
 * The page state is the class `Usuarios`; the search, the pages and the
 * request built by the form are functions of it.
 */
module UsuariosPage {
  import opened Common
  import opened Text
  import ListView

  const RecordsPerPage: nat := 10

  /** One account as the API returns it. */
  datatype Usuario = Usuario(
    id: int,
    nome: string,
    email: string,
    cpf: string,
    telefone: string,
    senha: string,
    ativo: bool)

  /** The form's fields (`formData`); it has no id. */
  datatype FormData = FormData(
    nome: string,
    email: string,
    cpf: string,
    telefone: string,
    senha: string,
    ativo: bool)

  /** The form as `resetForm` leaves it. */
  const EmptyForm: FormData := FormData("", "", "", "", "", true)

  // ===========================================================================
  // filteredUsuarios

  predicate MatchesSearch(u: Usuario, term: string)
  {
    || Includes(Lower(u.nome), Lower(term))
    || Includes(Lower(u.email), Lower(term))
    || Includes(Lower(u.cpf), Lower(term))
  }

  function SearchPredicate(term: string): Usuario -> bool
  {
    (u: Usuario) => MatchesSearch(u, term)
  }

  function FilterUsuarios(s: seq<Usuario>, term: string): (r: seq<Usuario>)
    ensures |r| <= |s|
    ensures forall u :: u in r <==> u in s && MatchesSearch(u, term)
  {
    ListView.Filter(s, SearchPredicate(term))
  }

  /** The search keeps exactly the matching accounts, in their order. */
  lemma FilterUsuariosSelects(s: seq<Usuario>, term: string)
    ensures forall u :: u in FilterUsuarios(s, term) <==> u in s && MatchesSearch(u, term)
    ensures ListView.IsSubsequence(FilterUsuarios(s, term), s)
  {
    ListView.FilterIsSubsequence(s, SearchPredicate(term));
  }

  /** The empty search term shows every account. */
  lemma EmptySearchShowsAll(s: seq<Usuario>)
    ensures FilterUsuarios(s, "") == s
  {
    forall u | u in s
      ensures SearchPredicate("")(u)
    {
      IncludesEmpty(Lower(u.nome));
    }
    ListView.FilterKeepsAll(s, SearchPredicate(""));
  }

  /** The case of the search term does not matter. */
  lemma SearchIgnoresCase(s: seq<Usuario>, term: string)
    ensures FilterUsuarios(s, term) == FilterUsuarios(s, Lower(term))
  {
    LowerIdempotent(term);
    ListView.FilterAgreeing(s, SearchPredicate(term), SearchPredicate(Lower(term)));
  }

  // ===========================================================================
  // The form

  /** The text inputs of the form, by their `name` attribute. */
  datatype TextField = Nome | Email | Cpf | Telefone | Senha

  /** A change event from the form: a text input reports its `value`, the
      `ativo` checkbox (the form's only checkbox) reports `checked`. */
  datatype ChangeEvent = TextChange(name: TextField, value: string) | CheckboxChange(checked: bool)

  function FieldValue(f: FormData, name: TextField): string
  {
    match name
    case Nome => f.nome
    case Email => f.email
    case Cpf => f.cpf
    case Telefone => f.telefone
    case Senha => f.senha
  }

  /** `handleInputChange`: `{ ...prev, [name]: type === 'checkbox' ? checked : value }`.
      Only the named field changes. */
  function ApplyChange(f: FormData, e: ChangeEvent): (r: FormData)
    ensures e.TextChange? ==>
              && FieldValue(r, e.name) == e.value
              && (forall n :: n != e.name ==> FieldValue(r, n) == FieldValue(f, n))
              && r.ativo == f.ativo
    ensures e.CheckboxChange? ==>
              && r.ativo == e.checked
              && (forall n :: FieldValue(r, n) == FieldValue(f, n))
  {
    match e
    case CheckboxChange(checked) => f.(ativo := checked)
    case TextChange(name, value) =>
      match name
      case Nome => f.(nome := value)
      case Email => f.(email := value)
      case Cpf => f.(cpf := value)
      case Telefone => f.(telefone := value)
      case Senha => f.(senha := value)
  }

  /** The form as `handleEditarUsuario` fills it: every field from the
      account except the password, which is left blank. */
  function EditPrefill(u: Usuario): (f: FormData)
    ensures f.nome == u.nome && f.email == u.email && f.cpf == u.cpf
    ensures f.telefone == u.telefone && f.ativo == u.ativo
    ensures f.senha == ""
  {
    FormData(u.nome, u.email, u.cpf, u.telefone, "", u.ativo)
  }

  /** The inputs carrying the `required` attribute in every mode. */
  predicate IsRequired(name: TextField)
  {
    name == Nome || name == Email || name == Cpf
  }

  /** The check `handleSubmit` makes first: `!nome || !email || !cpf` fails it.
      It holds exactly when every always-required input is non-empty. */
  function RequiredFilled(f: FormData): (b: bool)
    ensures b <==> forall n :: IsRequired(n) ==> FieldValue(f, n) != ""
  {
    FieldValue(f, Nome) != "" && FieldValue(f, Email) != "" && FieldValue(f, Cpf) != ""
  }

  /** What the form sends. */
  datatype UserRequest =
    | Put(id: int, body: FormData)   // PUT /Usuarios/{id}
    | Post(body: FormData)           // POST /Usuarios

  /** The password the update sends: `formData.senha || currentUsuario.senha`.
      A typed password wins; a blank one keeps the stored one; the result is
      blank only when both are. */
  function MergedSenha(typed: string, stored: string): (r: string)
    ensures typed != "" ==> r == typed
    ensures typed == "" ==> r == stored
    ensures r == "" <==> typed == "" && stored == ""
  {
    if typed != "" then typed else stored
  }

  /** `handleSubmit`'s request: None when a required field is empty (no call is
      made); an update of the recorded account when editing, else a creation. */
  function SubmitRequest(f: FormData, isEditing: bool, current: Option<Usuario>): (r: Option<UserRequest>)
    ensures r.None? <==> !RequiredFilled(f)
    ensures r.Some? ==> (r.value.Put? <==> isEditing && current.Some?)
    ensures r.Some? && r.value.Put? ==>
              && r.value.id == current.value.id
              && r.value.body.(senha := f.senha) == f
              && (f.senha == "" ==> r.value.body.senha == current.value.senha)
              && (f.senha != "" ==> r.value.body.senha == f.senha)
    ensures r.Some? && r.value.Post? ==> r.value.body == f
  {
    if !RequiredFilled(f) then None
    else if isEditing && current.Some? then
      Some(Put(current.value.id, f.(senha := MergedSenha(f.senha, current.value.senha))))
    else Some(Post(f))
  }

  /** The browser's constraint validation, which runs before `handleSubmit`:
      `nome`, `email` and `cpf` are `required` always, and `senha` only when
      the form creates an account (the spread adds `required` when not editing). */
  predicate FormValid(f: FormData, isEditing: bool)
  {
    RequiredFilled(f) && (!isEditing ==> f.senha != "")
  }

  /** A click on the submit button: the browser blocks an invalid form (no
      handler runs, nothing is sent), otherwise `handleSubmit` builds its
      request. Past the browser, the handler's own required-field check never
      fails, and a creation always carries a password. */
  function SubmitClick(f: FormData, isEditing: bool, current: Option<Usuario>): (r: Option<UserRequest>)
    ensures r.None? <==> !FormValid(f, isEditing)
    ensures r.Some? ==> r == SubmitRequest(f, isEditing, current)
    ensures r.Some? && r.value.Post? && !isEditing ==> r.value.body.senha != ""
  {
    if FormValid(f, isEditing) then SubmitRequest(f, isEditing, current) else None
  }

  /** Opening an account for editing and saving it without typing a password
      writes back the stored password, and every other field as it was. */
  lemma EditWithoutPasswordKeepsAccount(u: Usuario)
    requires u.nome != "" && u.email != "" && u.cpf != ""
    ensures SubmitRequest(EditPrefill(u), true, Some(u))
         == Some(Put(u.id, FormData(u.nome, u.email, u.cpf, u.telefone, u.senha, u.ativo)))
  {
  }

  /** After the edit form opens, the stored password survives every change that
      does not type into the password field. */
  lemma {:induction false} PasswordRetainedAcrossChanges(u: Usuario, es: seq<ChangeEvent>)
    requires forall i :: 0 <= i < |es| ==> !(es[i].TextChange? && es[i].name == Senha)
    requires RequiredFilled(ApplyChanges(EditPrefill(u), es))
    ensures var r := SubmitRequest(ApplyChanges(EditPrefill(u), es), true, Some(u));
            r.Some? && r.value.Put? && r.value.id == u.id && r.value.body.senha == u.senha
  {
    SenhaUntouched(EditPrefill(u), es);
  }

  /** The form after a sequence of change events, applied first to last: no
      events leave the form as it is, and the last event is applied to the
      form the earlier ones produced. */
  function ApplyChanges(f: FormData, es: seq<ChangeEvent>): (r: FormData)
    ensures es == [] ==> r == f
    ensures es != [] ==> r == ApplyChange(ApplyChanges(f, es[..|es| - 1]), es[|es| - 1])
    decreases |es|
  {
    if es == [] then f
    else
      var r := ApplyChanges(ApplyChange(f, es[0]), es[1..]);
      assert |es| > 1 ==> es[1..][..|es| - 2] == es[..|es| - 1][1..];
      assert |es| > 1 ==> es[..|es| - 1][0] == es[0];
      r
  }

  lemma {:induction false} SenhaUntouched(f: FormData, es: seq<ChangeEvent>)
    requires forall i :: 0 <= i < |es| ==> !(es[i].TextChange? && es[i].name == Senha)
    ensures ApplyChanges(f, es).senha == f.senha
    decreases |es|
  {
    if es != [] {
      assert FieldValue(ApplyChange(f, es[0]), Senha) == FieldValue(f, Senha);
      SenhaUntouched(ApplyChange(f, es[0]), es[1..]);
    }
  }

  /** The alert `handleSubmit` shows. */
  datatype SubmitAlert = RequiredFieldsMissing | Updated | Created | SaveFailed

  // ===========================================================================
  // The page state

  class Usuarios {
    var usuarios: seq<Usuario>
    var loading: bool
    var searchTerm: string
    var currentPage: int
    var showForm: bool
    var isEditing: bool
    var currentUsuario: Option<Usuario>
    var formData: FormData

    ghost predicate Valid()
      reads this
    {
      currentPage >= 1
    }

    /** The initial `useState` values. */
    constructor ()
      ensures Valid()
      ensures usuarios == [] && loading && searchTerm == "" && currentPage == 1
      ensures !showForm && !isEditing && currentUsuario == None && formData == EmptyForm
    {
      usuarios := [];
      loading := true;
      searchTerm := "";
      currentPage := 1;
      showForm := false;
      isEditing := false;
      currentUsuario := None;
      formData := EmptyForm;
    }

    /** `loadUsuarios`, given the response of `GET /Usuarios`; on failure the
        page shows an error and keeps the accounts it had. */
    method LoadUsuarios(res: Response<seq<Usuario>>)
      modifies this`usuarios, this`loading
      ensures !loading
      ensures usuarios == if res.Ok? then res.data else old(usuarios)
    {
      if res.Ok? {
        usuarios := res.data;
      }
      loading := false;
    }

    /** `filteredUsuarios` */
    function Filtered(): (r: seq<Usuario>)
      reads this
      ensures |r| <= |usuarios|
      ensures forall u :: u in r <==> u in usuarios && MatchesSearch(u, searchTerm)
    {
      FilterUsuarios(usuarios, searchTerm)
    }

    /** `totalPages` */
    function PageCount(): (t: nat)
      reads this
      ensures t == 0 <==> Filtered() == []
      ensures |Filtered()| <= t * RecordsPerPage
      ensures t > 0 ==> (t - 1) * RecordsPerPage < |Filtered()|
    {
      ListView.TotalPagesIsCeiling(|Filtered()|, RecordsPerPage);
      ListView.TotalPages(|Filtered()|, RecordsPerPage)
    }

    /** `currentRecords`: the window [(currentPage-1)*10, currentPage*10) of the filtered list. */
    function CurrentRecords(): (r: seq<Usuario>)
      reads this
      ensures |r| <= RecordsPerPage
      ensures currentPage >= 1 ==>
                r == Filtered()[Min((currentPage - 1) * RecordsPerPage, |Filtered()|)..
                                Min(currentPage * RecordsPerPage, |Filtered()|)]
    {
      var f := Filtered();
      if currentPage >= 1 then
        ListView.MulMonotone(0, currentPage - 1, RecordsPerPage);
        ListView.PageWindow(f, currentPage, RecordsPerPage);
        ListView.Page(f, currentPage, RecordsPerPage)
      else
        ListView.Page(f, currentPage, RecordsPerPage)
    }

    /** The search box's `onChange`: a new term always goes back to page 1. */
    method ChangeSearch(term: string)
      requires Valid()
      modifies this`searchTerm, this`currentPage
      ensures Valid()
      ensures searchTerm == term && currentPage == 1
    {
      searchTerm := term;
      currentPage := 1;
    }

    /** The "previous" button: `setCurrentPage(p => p - 1)` unless disabled. */
    method PreviousPage()
      requires Valid()
      requires !loading  // the pager is rendered only once loading has finished
      modifies this`currentPage
      ensures Valid()
      ensures currentPage == if ListView.CanGoBack(old(currentPage), PageCount()) then old(currentPage) - 1 else old(currentPage)
      ensures 1 <= old(currentPage) <= PageCount() ==> 1 <= currentPage <= PageCount()
    {
      if ListView.CanGoBack(currentPage, PageCount()) {
        currentPage := currentPage - 1;
      }
    }

    /** The "next" button: `setCurrentPage(p => p + 1)` unless disabled. */
    method NextPage()
      requires Valid()
      requires !loading  // the pager is rendered only once loading has finished
      modifies this`currentPage
      ensures Valid()
      ensures currentPage == if ListView.CanGoForward(old(currentPage), PageCount()) then old(currentPage) + 1 else old(currentPage)
      ensures 1 <= old(currentPage) <= PageCount() ==> 1 <= currentPage <= PageCount()
    {
      if ListView.CanGoForward(currentPage, PageCount()) {
        currentPage := currentPage + 1;
      }
    }

    /** `resetForm` */
    method ResetForm()
      modifies this`formData, this`isEditing, this`currentUsuario, this`showForm
      ensures formData == EmptyForm && !isEditing && currentUsuario == None && !showForm
    {
      formData := EmptyForm;
      isEditing := false;
      currentUsuario := None;
      showForm := false;
    }

    /** `handleNovoUsuario`: an empty form, shown. */
    method NewUsuario()
      modifies this`formData, this`isEditing, this`currentUsuario, this`showForm
      ensures formData == EmptyForm && !isEditing && currentUsuario == None && showForm
    {
      ResetForm();
      showForm := true;
    }

    /** `handleEditarUsuario`: the form filled from `u`, password blank, `u` recorded. */
    method EditUsuario(u: Usuario)
      requires !loading  // the table's edit buttons are rendered only once loading has finished
      modifies this`formData, this`isEditing, this`currentUsuario, this`showForm
      ensures formData == EditPrefill(u)
      ensures formData.nome == u.nome && formData.email == u.email && formData.cpf == u.cpf
      ensures formData.telefone == u.telefone && formData.ativo == u.ativo && formData.senha == ""
      ensures isEditing && currentUsuario == Some(u) && showForm
    {
      formData := EditPrefill(u);
      currentUsuario := Some(u);
      isEditing := true;
      showForm := true;
    }

    /** `handleInputChange` */
    method InputChange(e: ChangeEvent)
      modifies this`formData
      ensures formData == ApplyChange(old(formData), e)
    {
      formData := ApplyChange(formData, e);
    }

    /** `handleSubmit`. `saved` is whether the PUT or POST succeeded; after a
        success the form closes (`closeForm` ends in `resetForm`), otherwise
        the state stays as it was. */
    method Submit(saved: bool) returns (request: Option<UserRequest>, alert: SubmitAlert)
      modifies this`formData, this`isEditing, this`currentUsuario, this`showForm
      ensures request == SubmitRequest(old(formData), old(isEditing), old(currentUsuario))
      ensures request.None? ==>
                && alert == RequiredFieldsMissing
                && formData == old(formData) && isEditing == old(isEditing)
                && currentUsuario == old(currentUsuario) && showForm == old(showForm)
      ensures request.Some? && !saved ==>
                && alert == SaveFailed
                && formData == old(formData) && isEditing == old(isEditing)
                && currentUsuario == old(currentUsuario) && showForm == old(showForm)
      ensures request.Some? && saved ==>
                && alert == (if request.value.Put? then Updated else Created)
                && formData == EmptyForm && !isEditing && currentUsuario == None && !showForm
    {
      request := SubmitRequest(formData, isEditing, currentUsuario);
      if request.None? {
        alert := RequiredFieldsMissing;
      } else if !saved {
        alert := SaveFailed;
      } else {
        alert := if request.value.Put? then Updated else Created;
        ResetForm();
      }
    }

    /** A click on the form's submit button. An invalid form (see `FormValid`)
        is stopped by the browser: no handler runs, no alert is shown and the
        state stays. A valid one goes through `handleSubmit`. */
    method SubmitButton(saved: bool) returns (request: Option<UserRequest>, alert: Option<SubmitAlert>)
      modifies this`formData, this`isEditing, this`currentUsuario, this`showForm
      ensures request == SubmitClick(old(formData), old(isEditing), old(currentUsuario))
      ensures request.None? ==>
                && alert == None
                && formData == old(formData) && isEditing == old(isEditing)
                && currentUsuario == old(currentUsuario) && showForm == old(showForm)
      ensures request.Some? && !saved ==>
                && alert == Some(SaveFailed)
                && formData == old(formData) && isEditing == old(isEditing)
                && currentUsuario == old(currentUsuario) && showForm == old(showForm)
      ensures request.Some? && saved ==>
                && alert == Some(if request.value.Put? then Updated else Created)
                && formData == EmptyForm && !isEditing && currentUsuario == None && !showForm
    {
      if !FormValid(formData, isEditing) {
        request, alert := None, None;
      } else {
        var a;
        request, a := Submit(saved);
        alert := Some(a);
      }
    }
  }
}
