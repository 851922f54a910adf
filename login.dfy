/**
 * The login decision of `LoginPage.tsx`: the fetched account list is scanned
 * for the first account whose e-mail and password equal the typed ones
 * exactly (plain string equality, case-sensitive), and the outcome decides
 * what is written to `localStorage` and where the router goes.
 */
module LoginPage {
  import opened Common
  import UsuariosPage

  type Usuario = UsuariosPage.Usuario

  const UserNameKey: string := "user_name"
  const AuthKey: string := "auth"
  const DashboardRoute: string := "/dashboard"
  const LoginRoute: string := "/"

  /** The `find` predicate: `u.email === email && u.senha === senha`. */
  predicate Matches(u: Usuario, email: string, senha: string)
  {
    u.email == email && u.senha == senha
  }

  /** The first position at which `find` stops, if any. */
  function FirstMatch(us: seq<Usuario>, email: string, senha: string): (r: Option<nat>)
    ensures r.Some? ==> r.value < |us| && Matches(us[r.value], email, senha)
    ensures r.Some? ==> forall j :: 0 <= j < r.value ==> !Matches(us[j], email, senha)
    ensures r.None? <==> forall j :: 0 <= j < |us| ==> !Matches(us[j], email, senha)
  {
    if us == [] then None
    else if Matches(us[0], email, senha) then Some(0)
    else
      match FirstMatch(us[1..], email, senha)
      case None => None
      case Some(k) => Some(k + 1)
  }

  /** `usuarios.find(...)` */
  function FindUser(us: seq<Usuario>, email: string, senha: string): (r: Option<Usuario>)
    ensures r.Some? ==> r.value in us && Matches(r.value, email, senha)
    ensures r.None? <==> forall u :: u in us ==> !Matches(u, email, senha)
  {
    match FirstMatch(us, email, senha)
    case None => None
    case Some(k) => Some(us[k])
  }

  /** When several accounts match, `find` returns the earliest one. */
  lemma FindUserIsFirst(us: seq<Usuario>, email: string, senha: string, i: nat)
    requires i < |us| && Matches(us[i], email, senha)
    ensures FindUser(us, email, senha).Some?
    ensures exists k :: 0 <= k <= i && FindUser(us, email, senha) == Some(us[k])
  {
    var k := FirstMatch(us, email, senha).value;
    assert k <= i;
  }

  /** The comparison is case-sensitive: an e-mail typed with different case does not log in. */
  lemma EmailIsCaseSensitive()
    ensures FindUser([UsuariosPage.Usuario(1, "Ana", "ana@x.com", "1", "", "s", true)], "Ana@x.com", "s").None?
  {
  }

  /** The browser's constraint validation of the login form: both inputs are
      `required`, so `handleLogin` runs only for a non-empty e-mail and password. */
  predicate LoginFormValid(email: string, senha: string)
  {
    email != "" && senha != ""
  }

  /** Through the form, an account with a blank e-mail or a blank password can
      never be the one that logs in. */
  lemma BlankAccountNeverLogsIn(us: seq<Usuario>, email: string, senha: string)
    requires LoginFormValid(email, senha)
    ensures FindUser(us, email, senha).Some? ==>
              FindUser(us, email, senha).value.email != "" && FindUser(us, email, senha).value.senha != ""
  {
  }

  /** The message `handleLogin` shows. */
  datatype LoginAlert =
    | InvalidCredentials   // 'Usuário ou senha incorretos'
    | ConnectionFailure    // 'Falha ao conectar ao servidor. ...'

  /** The state `handleLogin` touches: the page's `loading` flag, the
      browser's `localStorage`, the router's location and `lastAlert`, the
      last alert the page showed (a successful login shows none, so an
      earlier alert stays recorded there). */
  class Login {
    var loading: bool
    var storage: map<string, string>
    var location: string
    var lastAlert: Option<LoginAlert>

    constructor (storage: map<string, string>)
      ensures !loading && this.storage == storage && location == LoginRoute && lastAlert == None
    {
      loading := false;
      this.storage := storage;
      location := LoginRoute;
      lastAlert := None;
    }

    /** `handleLogin` for the typed `email` and `senha`, given the response
        of `GET /Usuarios`. On success the page stays in its loading state
        while the router leaves it. */
    method HandleLogin(email: string, senha: string, res: Response<seq<Usuario>>)
      modifies this
      ensures res.Ok? && FindUser(res.data, email, senha).Some? ==>
                && storage == old(storage)[UserNameKey := FindUser(res.data, email, senha).value.nome][AuthKey := "true"]
                && location == DashboardRoute
                && loading
                && lastAlert == old(lastAlert)
      ensures res.Ok? && FindUser(res.data, email, senha).None? ==>
                && storage == old(storage)
                && location == old(location)
                && !loading
                && lastAlert == Some(InvalidCredentials)
      ensures res.Failed? ==>
                && storage == old(storage)
                && location == old(location)
                && !loading
                && lastAlert == Some(ConnectionFailure)
    {
      loading := true;
      match res {
        case Failed =>
          loading := false;
          lastAlert := Some(ConnectionFailure);
        case Ok(usuarios) =>
          var found := FindUser(usuarios, email, senha);
          if found.Some? {
            storage := storage[UserNameKey := found.value.nome];
            storage := storage[AuthKey := "true"];
            location := DashboardRoute;
          } else {
            loading := false;
            lastAlert := Some(InvalidCredentials);
          }
      }
    }

    /** A click on "ACESSAR PAINEL": the browser stops a form with an empty
        input, so nothing happens; otherwise `handleLogin` runs. The form is
        rendered only while the page is not loading. */
    method SubmitButton(email: string, senha: string, res: Response<seq<Usuario>>)
      requires !loading
      modifies this
      ensures !LoginFormValid(email, senha) ==>
                && loading == old(loading) && storage == old(storage)
                && location == old(location) && lastAlert == old(lastAlert)
      ensures LoginFormValid(email, senha) && res.Ok? && FindUser(res.data, email, senha).Some? ==>
                && storage == old(storage)[UserNameKey := FindUser(res.data, email, senha).value.nome][AuthKey := "true"]
                && location == DashboardRoute
                && loading
                && lastAlert == old(lastAlert)
      ensures LoginFormValid(email, senha) && !(res.Ok? && FindUser(res.data, email, senha).Some?) ==>
                && storage == old(storage) && location == old(location) && !loading
                && lastAlert == Some(if res.Ok? then InvalidCredentials else ConnectionFailure)
    {
      if LoginFormValid(email, senha) {
        HandleLogin(email, senha, res);
      }
    }
  }
}
