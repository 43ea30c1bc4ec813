/** The admin site's authorisation rules and its worker save hook. A request is
    reduced to the requesting account and its superuser flag; an admin object is
    reduced to the account ids its rule compares with the requester. */
module Admin {
  import opened Common
  import opened Models

  /** `request.user`: the account id and whether it is a superuser. */
  datatype Requester = Requester(user: nat, isSuperuser: bool)

  /** The two `django.contrib.auth` models re-registered with restricted admins. */
  datatype AuthModel = UserModel | GroupModel

  /** The three `has_*_permission` hooks those admins override. */
  datatype Action = Add | Change | Delete

  /** `UserAdmin` and `GroupAdmin`: each hook answers with the superuser flag,
      whatever object it is asked about. */
  function AuthAdminPermission(req: Requester, model: AuthModel, action: Action): (r: bool)
    ensures r <==> req.isSuperuser
  {
    match (model, action)
    case (UserModel, Add) => req.isSuperuser
    case (UserModel, Change) => req.isSuperuser
    case (UserModel, Delete) => req.isSuperuser
    case (GroupModel, Add) => req.isSuperuser
    case (GroupModel, Change) => req.isSuperuser
    case (GroupModel, Delete) => req.isSuperuser
  }

  // ---------------------------------------------------------------------------
  // Change permissions on workers, articles and comments
  // ---------------------------------------------------------------------------

  /** The one-to-one link between accounts and workers: no two accounts share a
      worker. */
  ghost predicate OneWorkerPerUser(staff: StaffDirectory) {
    forall u, v :: u in staff && v in staff && staff[u].trabajadorId == staff[v].trabajadorId ==> u == v
  }

  /** `t.user == u` for the worker with id `tid`. */
  predicate IsUserOfWorker(staff: StaffDirectory, u: nat, tid: nat) {
    u in staff && staff[u].trabajadorId == tid
  }

  /** `TrabajadorAdmin.has_change_permission`; `obj` is the edited worker's `user`,
      `None` on the change list. */
  function TrabajadorChangePermission(req: Requester, obj: Option<nat>): (r: bool)
    ensures req.isSuperuser ==> r
    ensures !req.isSuperuser ==> (r <==> obj == Some(req.user))
  {
    if req.isSuperuser then true
    else if obj.Some? && req.user == obj.value then true
    else false
  }

  /** `NoticiaAdmin.has_change_permission`; `obj` is the edited article's `autor`
      (a worker id), `None` on the change list. */
  function NoticiaChangePermission(req: Requester, obj: Option<nat>, staff: StaffDirectory): (r: bool)
    ensures req.isSuperuser ==> r
    ensures !req.isSuperuser && r ==> obj.Some? && req.user in staff && staff[req.user].trabajadorId == obj.value
    ensures obj.Some? && req.user in staff && staff[req.user].trabajadorId == obj.value ==> r
  {
    if req.isSuperuser then true
    else if obj.Some? && IsUserOfWorker(staff, req.user, obj.value) then true
    else false
  }

  /** `ComentarioAdmin.has_change_permission`; `autores` maps each article id to its
      `autor`, which the foreign keys guarantee for the comment's article. */
  function ComentarioChangePermission(req: Requester, obj: Option<Comentario>, autores: map<nat, nat>,
                                      staff: StaffDirectory): (r: bool)
    requires obj.Some? ==> obj.value.noticia in autores
    ensures req.isSuperuser ==> r
    ensures !req.isSuperuser && r ==> obj.Some? && IsUserOfWorker(staff, req.user, autores[obj.value.noticia])
  {
    if req.isSuperuser then true
    else if obj.Some? && IsUserOfWorker(staff, req.user, autores[obj.value.noticia]) then true
    else false
  }

  /** A comment may be changed by exactly those who may change the article it is on. */
  lemma ComentarioChangeFollowsNoticia(req: Requester, c: Comentario, autores: map<nat, nat>, staff: StaffDirectory)
    requires c.noticia in autores
    ensures ComentarioChangePermission(req, Some(c), autores, staff)
        == NoticiaChangePermission(req, Some(autores[c.noticia]), staff)
  {
  }

  /** On the change lists, where no object is given, the three change hooks fall back
      to the rule of the `User` and `Group` admins: superusers only. */
  lemma ChangeListSuperuserOnly(req: Requester, autores: map<nat, nat>, staff: StaffDirectory)
    ensures TrabajadorChangePermission(req, None) == AuthAdminPermission(req, UserModel, Change)
    ensures NoticiaChangePermission(req, None, staff) == AuthAdminPermission(req, UserModel, Change)
    ensures ComentarioChangePermission(req, None, autores, staff) == AuthAdminPermission(req, UserModel, Change)
  {
  }

  /** With accounts and workers one to one, an article has at most one editor besides
      the superusers: the account of its author. */
  lemma {:induction false} OnlyTheAuthorChanges(u: nat, v: nat, autor: nat, staff: StaffDirectory)
    requires OneWorkerPerUser(staff)
    requires NoticiaChangePermission(Requester(u, false), Some(autor), staff)
    requires NoticiaChangePermission(Requester(v, false), Some(autor), staff)
    ensures u == v
  {
    assert staff[u].trabajadorId == autor == staff[v].trabajadorId;
  }

  // ---------------------------------------------------------------------------
  // Add permission on comments
  // ---------------------------------------------------------------------------

  /** `Trabajador.DoesNotExist` */
  datatype LookupError = DoesNotExist

  /** `Trabajador.objects.get(user=u)` */
  function TrabajadorOfUser(staff: StaffDirectory, u: nat): (r: Result<Staff, LookupError>)
    ensures r.Ok? <==> u in staff
    ensures r.Ok? ==> r.value == staff[u]
  {
    if u in staff then Ok(staff[u]) else Err(DoesNotExist)
  }

  /** `ComentarioAdmin.has_add_permission`: superusers may; anyone else only through
      a worker whose role may comment, a missing worker meaning no. It admits a
      non-superuser exactly when `Comentario.save` would accept that account as
      a comment's author. */
  function ComentarioAddPermission(req: Requester, staff: StaffDirectory): (r: bool)
    ensures req.isSuperuser ==> r
    ensures !req.isSuperuser ==> (r <==> ComentarioGuard(Some(req.user), staff) == None)
  {
    if req.isSuperuser then true
    else
      match TrabajadorOfUser(staff, req.user)
      case Err(DoesNotExist) => false
      case Ok(trabajador) => trabajador.rol.puedeDejarComentarios
  }

  /** `ComentarioInline.has_add_permission`: the same rule, written with
      `hasattr(request.user, 'trabajador')`. */
  function ComentarioInlineAddPermission(req: Requester, staff: StaffDirectory): (r: bool)
    ensures !req.isSuperuser && req.user !in staff ==> !r
  {
    if req.isSuperuser then true
    else if req.user in staff && staff[req.user].rol.puedeDejarComentarios then true
    else false
  }

  /** The article page's inline and the comment admin agree on who may add. */
  lemma InlineAgreesWithAdmin(req: Requester, staff: StaffDirectory)
    ensures ComentarioInlineAddPermission(req, staff) == ComentarioAddPermission(req, staff)
  {
  }

  /** A superuser without a worker is let in by both add hooks, yet a comment naming
      that account as its author is refused by `Comentario.save`. */
  lemma SuperuserWithoutWorkerRefusedOnSave(req: Requester, staff: StaffDirectory)
    requires req.isSuperuser && req.user !in staff
    ensures ComentarioAddPermission(req, staff) && ComentarioInlineAddPermission(req, staff)
    ensures ComentarioGuard(Some(req.user), staff) == Some(AuthorIsNotWorker)
  {
  }

  // ---------------------------------------------------------------------------
  // The comment list's "answered" column
  // ---------------------------------------------------------------------------

  /** `ComentarioAdmin.tiene_respuesta`: Python truthiness of `respuesta`, so neither
      NULL nor the empty text count as an answer. */
  function TieneRespuesta(c: Comentario): (r: bool)
    ensures r <==> c.respuesta.Some? && |c.respuesta.value| > 0
  {
    match c.respuesta
    case None => false
    case Some(text) => text != ""
  }

  /** Answering a comment with some text marks it answered; clearing the answer, to
      NULL or to the empty text, marks it unanswered; nothing else about the comment
      matters. */
  lemma TieneRespuestaOnlyReadsAnswer(c: Comentario, text: string)
    ensures TieneRespuesta(c.(respuesta := Some(text))) <==> text != ""
    ensures !TieneRespuesta(c.(respuesta := None))
    ensures TieneRespuesta(c) == TieneRespuesta(Comentario(0, None, "", c.respuesta))
  {
  }

  // ---------------------------------------------------------------------------
  // Saving a worker through the admin
  // ---------------------------------------------------------------------------

  /** The fields of a `User` the admin copies into its worker. */
  datatype Account = Account(email: string, password: string)

  /** The worker's `correo` is its account's email. */
  predicate CorreoFromAccount(t: Trabajador, accounts: map<nat, Account>)
    reads t`user, t`correo
  {
    t.user in accounts && t.correo == accounts[t.user].email
  }

  /** `TrabajadorForm.save`: the form's worker takes its account's email; with
      `commit` it is then saved, which runs the photo handling of `Trabajador.save`.
      `localFileExists` and `uploaded` are what that save finds on disk and gets
      from the image host. */
  method TrabajadorFormSave(t: Trabajador, accounts: map<nat, Account>, commit: bool,
                            localFileExists: bool, uploaded: Option<string>)
    requires t.user in accounts
    modifies t`correo, t`fotoPerfil
    ensures CorreoFromAccount(t, accounts)
    ensures !commit ==> t.fotoPerfil == old(t.fotoPerfil)
    ensures commit ==> t.fotoPerfil != "" || t.fotoPerfilLocal != ""
    ensures commit && !(t.fotoPerfilLocal != "" && localFileExists) && old(t.fotoPerfil) != "" ==>
      t.fotoPerfil == old(t.fotoPerfil)
    ensures commit && t.fotoPerfilLocal != "" && localFileExists ==>
      t.fotoPerfil == (if uploaded.Some? then uploaded.value else "")
    ensures commit && !(t.fotoPerfilLocal != "" && localFileExists) && old(t.fotoPerfil) == "" ==>
      t.fotoPerfil == DEFAULT_FOTO_PERFIL_URL
  {
    t.correo := accounts[t.user].email;
    if commit {
      t.Save(localFileExists, uploaded);
    }
  }

  /** `TrabajadorAdmin.save_model`: the same copy of the account's email, then the
      model's own save. */
  method TrabajadorSaveModel(t: Trabajador, accounts: map<nat, Account>, localFileExists: bool,
                             uploaded: Option<string>)
    requires t.user in accounts
    modifies t`correo, t`fotoPerfil
    ensures CorreoFromAccount(t, accounts)
    ensures t.fotoPerfil != "" || t.fotoPerfilLocal != ""
    ensures !(t.fotoPerfilLocal != "" && localFileExists) && old(t.fotoPerfil) != "" ==>
      t.fotoPerfil == old(t.fotoPerfil)
    ensures t.fotoPerfilLocal != "" && localFileExists ==>
      t.fotoPerfil == (if uploaded.Some? then uploaded.value else "")
    ensures !(t.fotoPerfilLocal != "" && localFileExists) && old(t.fotoPerfil) == "" ==>
      t.fotoPerfil == DEFAULT_FOTO_PERFIL_URL
  {
    t.correo := accounts[t.user].email;
    t.Save(localFileExists, uploaded);
  }
}
