/** The rules of the REST serializers: how `NoticiaSerializer` reads, checks,
    stores and merges an article's categories, images and editors; how
    `UserProfileSerializer` normalises the profile-photo path; and when
    `ResetPasswordSerializer` accepts a new password. */
module Serializers {
  import opened Common
  import opened Text
  import opened Models

  // ===========================================================================
  // Categories
  // ===========================================================================

  /** `NoticiaSerializer.validate_categorias`: a falsy value becomes `''`; a
      comma-split token in neither `FLAT_CATEGORIAS` nor the legacy list is refused
      (the error names every such token, in order); otherwise the value is kept
      unchanged. A null value reaches the method as `""` here (both are falsy). */
  function ValidateCategorias(value: string): (r: Result<string, seq<string>>)
    ensures value == "" ==> r == Ok("")
    ensures r.Ok? ==> r.value == value
    ensures value != "" && r.Ok? ==> forall k :: 0 <= k < |Split(value, ',')| ==>
      Split(value, ',')[k] in FLAT_CATEGORIAS || Split(value, ',')[k] in LEGACY_CATEGORIAS
    ensures value != "" && r.Err? ==>
      exists k :: 0 <= k < |Split(value, ',')| && Split(value, ',')[k] !in FLAT_CATEGORIAS + LEGACY_CATEGORIAS
    ensures r.Err? ==> r.error != [] && forall k :: 0 <= k < |r.error| ==>
      r.error[k] in Split(value, ',') && r.error[k] !in FLAT_CATEGORIAS && r.error[k] !in LEGACY_CATEGORIAS
    ensures r.Err? ==> r.error == InvalidTokens(Split(value, ','), FLAT_CATEGORIAS + LEGACY_CATEGORIAS)
  {
    if value == "" then Ok("")
    else
      var bad := InvalidTokens(Split(value, ','), FLAT_CATEGORIAS + LEGACY_CATEGORIAS);
      if bad != [] then Err(bad) else Ok(value)
  }

  /** The `categorias` entry of a request body. */
  datatype CategoriasInput = Missing | Null | Listed(items: seq<string>) | Given(text: string)

  /** The request entry as `to_internal_value` and the `CharField` read it: a list is
      joined with `','`, text is stripped of surrounding whitespace, null is null;
      `None` when the entry is absent. */
  function CategoriasText(input: CategoriasInput): (r: Option<string>)
    ensures input.Missing? <==> r.None?
    ensures input.Listed? ==> r == Some(Strip(Join(input.items, ',')))
    ensures input.Given? ==> r == Some(Strip(input.text))
    ensures input.Null? ==> r == Some("")
  {
    match input
    case Missing => None
    case Null => Some("")
    case Listed(items) => Some(Strip(Join(items, ',')))
    case Given(text) => Some(Strip(text))
  }

  /** The validated `categorias` of a request: `None` when absent (nothing to
      validate), otherwise the validator's verdict on the field's text. */
  function DeserializeCategorias(input: CategoriasInput): (r: Option<Result<string, seq<string>>>)
    ensures r.None? <==> input.Missing?
    ensures input.Null? ==> r == Some(Ok(""))
    ensures r.Some? && r.value.Ok? ==> r.value.value == CategoriasText(input).value
    ensures r.Some? && r.value.Err? ==> r.value.error != [] && CategoriasText(input).value != ""
  {
    match CategoriasText(input)
    case None => None
    case Some(text) => Some(ValidateCategorias(text))
  }

  /** `to_representation`: the stored text as a list, by `get_categorias`; empty
      text gives the empty list, any other text the comma-free pieces that join
      back to it. */
  function RepresentCategorias(stored: string): (r: seq<string>)
    ensures stored == "" <==> r == []
    ensures stored != "" ==> Join(r, ',') == stored
    ensures forall k :: 0 <= k < |r| ==> ',' !in r[k]
  {
    GetCategorias(stored)
  }

  /** What `create` stores for the validated categories: a present, non-empty value
      as it is, anything else as `''`. */
  function CreateCategorias(validated: Option<string>): (r: string)
    ensures validated.Some? && validated.value != "" ==> r == validated.value
    ensures validated.None? || validated.value == "" ==> r == ""
  {
    if validated.Some? && validated.value != "" then validated.value else ""
  }

  /** What `update` stores for the categories and for each image URL: a present,
      non-empty (truthy) value replaces the stored one, anything else keeps it. */
  function MergeTruthy(stored: string, validated: Option<string>): (r: string)
    ensures validated.Some? && validated.value != "" ==> r == validated.value
    ensures validated.None? || validated.value == "" ==> r == stored
  {
    if validated.Some? && validated.value != "" then validated.value else stored
  }

  /** Every character of `Join(xs, sep)` is the separator or a character of a piece. */
  lemma {:induction false} JoinChars(xs: seq<string>, sep: char, i: int)
    requires 0 <= i < |Join(xs, sep)|
    ensures Join(xs, sep)[i] == sep || exists k, j :: 0 <= k < |xs| && 0 <= j < |xs[k]| && Join(xs, sep)[i] == xs[k][j]
    decreases |xs|
  {
    if |xs| == 1 {
      assert Join(xs, sep)[i] == xs[0][i];
    } else if i < |xs[0]| {
      assert Join(xs, sep)[i] == xs[0][i];
    } else if i > |xs[0]| {
      var rest := Join(xs[1..], sep);
      assert Join(xs, sep)[i] == rest[i - |xs[0]| - 1];
      JoinChars(xs[1..], sep, i - |xs[0]| - 1);
      if rest[i - |xs[0]| - 1] != sep {
        var k, j :| 0 <= k < |xs[1..]| && 0 <= j < |xs[1..][k]| && rest[i - |xs[0]| - 1] == xs[1..][k][j];
        assert xs[1..][k] == xs[k + 1];
      }
    }
  }

  /** A list of categories, each non-empty and free of commas and whitespace, comes
      back as the same list: it is accepted exactly when every token is allowed, it is
      stored as the comma-joined text, and that text is represented as the list. */
  lemma CategoriasListRoundTrip(toks: seq<string>)
    requires toks != []
    requires forall k :: 0 <= k < |toks| ==> toks[k] != "" && ',' !in toks[k]
    requires forall k, j :: 0 <= k < |toks| && 0 <= j < |toks[k]| ==> !IsSpace(toks[k][j])
    ensures DeserializeCategorias(Listed(toks)) == Some(Ok(Join(toks, ','))) <==>
            forall k :: 0 <= k < |toks| ==> toks[k] in FLAT_CATEGORIAS || toks[k] in LEGACY_CATEGORIAS
    ensures DeserializeCategorias(Listed(toks)).value.Ok? ==>
            RepresentCategorias(CreateCategorias(Some(DeserializeCategorias(Listed(toks)).value.value))) == toks
  {
    var joined := Join(toks, ',');
    JoinedCategoriasUnstripped(toks);
    SplitJoin(toks, ',');
    DeserializeListed(toks);
    JoinedCategoriasVerdict(joined, toks);
  }

  /** A list whose joined text has nothing to strip is validated as that text. */
  lemma DeserializeListed(toks: seq<string>)
    requires Strip(Join(toks, ',')) == Join(toks, ',')
    ensures DeserializeCategorias(Listed(toks)) == Some(ValidateCategorias(Join(toks, ',')))
  {
  }

  /** The validator's verdict on a joined list is read off its tokens. */
  lemma JoinedCategoriasVerdict(joined: string, toks: seq<string>)
    requires joined != "" && Split(joined, ',') == toks
    ensures ValidateCategorias(joined) == Ok(joined) <==>
            forall k :: 0 <= k < |toks| ==> toks[k] in FLAT_CATEGORIAS || toks[k] in LEGACY_CATEGORIAS
    ensures ValidateCategorias(joined).Ok? ==> GetCategorias(CreateCategorias(Some(joined))) == toks
  {
  }

  /** Joining such tokens gives non-empty text that stripping leaves alone. */
  lemma JoinedCategoriasUnstripped(toks: seq<string>)
    requires toks != []
    requires forall k :: 0 <= k < |toks| ==> toks[k] != ""
    requires forall k, j :: 0 <= k < |toks| && 0 <= j < |toks[k]| ==> !IsSpace(toks[k][j])
    ensures Join(toks, ',') != "" && Strip(Join(toks, ',')) == Join(toks, ',')
  {
    var joined := Join(toks, ',');
    assert joined != "" by {
      if |toks| > 1 {
        assert |joined| >= |toks[0]|;
      }
    }
    JoinChars(toks, ',', 0);
    JoinChars(toks, ',', |joined| - 1);
    StripKeeps(joined);
  }

  /** What the serializer accepts, the corrected save-time check accepts too, so an
      accepted article would be stored. */
  lemma AcceptedCategoriasAreSaved(value: string)
    requires ValidateCategorias(value).Ok?
    ensures ValidateCategoriasOnSave(ValidateCategorias(value).value) ==
      if value == "" then Ok(EmptyList) else Ok(Text(value))
  {
  }

  /** The serializer accepts the legacy token `argentina`, but the staticmethod
      validator `Noticia.save` calls as written refuses it, so such an article passes
      validation and then fails to save. */
  lemma LegacyCategoryRefusedAsWritten()
    ensures ValidateCategorias("argentina") == Ok("argentina")
    ensures ValidateCategoriasStatic("argentina") == Err(["argentina"])
    ensures SaveCheck("argentina") == Rejected(["argentina"])
  {
    LegacyTokenAccepted();
    LegacyTokenRefusedOnSave();
  }

  /** The serializer admits `argentina` through its legacy list. */
  lemma LegacyTokenAccepted()
    ensures ValidateCategorias("argentina") == Ok("argentina")
  {
    SplitWithoutSep("argentina", ',');
    assert InvalidTokens(["argentina"], FLAT_CATEGORIAS + LEGACY_CATEGORIAS) == [];
  }

  /** The staticmethod knows no legacy list and refuses `argentina`. */
  lemma LegacyTokenRefusedOnSave()
    ensures ValidateCategoriasStatic("argentina") == Err(["argentina"])
  {
    ArgentinaIsNotACategory();
    SplitWithoutSep("argentina", ',');
    assert InvalidTokens(["argentina"], FLAT_CATEGORIAS) == ["argentina"];
  }

  /** The legacy token is not one of the current categories. */
  lemma ArgentinaIsNotACategory()
    ensures "argentina" !in FLAT_CATEGORIAS
  {
    if "argentina" in FLAT_CATEGORIAS {
      FlatKeyOrigin("argentina");
      ArgentinaIsNotASubcategory();
    }
  }

  /** No group has a subcategory keyed `argentina`. */
  lemma ArgentinaIsNotASubcategory()
    ensures "argentina" !in ["legislativos", "judiciales", "conurbano", "provincias", "municipios", "protestas"]
    ensures "argentina" !in ["cine", "literatura", "moda", "tecnologia", "eventos"]
    ensures "argentina" !in ["finanzas", "negocios", "empresas", "dolar"]
    ensures "argentina" !in ["politica_exterior", "estados_unidos", "asia", "medio_oriente", "internacional"]
  {
    assert "argentina"[0] != "asia"[1];
  }

  // ===========================================================================
  // Create and update of an article
  // ===========================================================================

  /** The validated data of a `NoticiaSerializer` request; a field is `None` when
      the request did not supply it. `imagenes` holds `imagen_1` ... `imagen_6`
      (`Some("")` for a blank value). `contadorVisitas` is the writable
      `contador_visitas`, which `create` stores and `update` ignores. */
  datatype NoticiaData = NoticiaData(
    nombreNoticia: Option<string>,
    fechaPublicacion: Option<int>,
    categorias: Option<string>,
    palabrasClave: Option<string>,
    subtitulo: Option<string>,
    soloParaSubscriptores: Option<bool>,
    contenido: Option<string>,
    tieneComentarios: Option<bool>,
    estado: Option<nat>,
    autor: Option<nat>,
    imagenes: seq<Option<string>>,
    editores: Option<set<nat>>,
    contadorVisitas: Option<nat>)

  /** A field `update` copies when the request supplied it. */
  function Merge<T>(stored: T, supplied: Option<T>): (r: T)
    ensures supplied.Some? ==> r == supplied.value
    ensures supplied.None? ==> r == stored
  {
    if supplied.Some? then supplied.value else stored
  }

  /** The column copies of `NoticiaSerializer.update`: each listed field the request
      supplied is copied, and the categories are replaced only by a non-empty value. */
  method MergeFields(instance: Noticia, data: NoticiaData)
    modifies instance
    ensures instance.nombreNoticia == Merge(old(instance.nombreNoticia), data.nombreNoticia)
    ensures instance.fechaPublicacion == Merge(old(instance.fechaPublicacion), data.fechaPublicacion)
    ensures instance.categorias == MergeTruthy(old(instance.categorias), data.categorias)
    ensures instance.palabrasClave == Merge(old(instance.palabrasClave), data.palabrasClave)
    ensures instance.subtitulo == Merge(old(instance.subtitulo), data.subtitulo)
    ensures instance.soloParaSubscriptores == Merge(old(instance.soloParaSubscriptores), data.soloParaSubscriptores)
    ensures instance.contenido == Merge(old(instance.contenido), data.contenido)
    ensures instance.tieneComentarios == Merge(old(instance.tieneComentarios), data.tieneComentarios)
    ensures instance.estado == (if data.estado.Some? then Some(data.estado.value) else old(instance.estado))
    ensures instance.autor == Merge(old(instance.autor), data.autor)
    ensures instance.id == old(instance.id) && instance.slug == old(instance.slug)
    ensures instance.imagenCabecera == old(instance.imagenCabecera) && instance.imagenes == old(instance.imagenes)
    ensures instance.editores == old(instance.editores)
    ensures instance.contadorVisitas == old(instance.contadorVisitas)
    ensures instance.ultimaActualizacionContador == old(instance.ultimaActualizacionContador)
  {
    MergeTextFields(instance, data);
    MergeFlagFields(instance, data);
  }

  /** The text columns of the copy. */
  method MergeTextFields(instance: Noticia, data: NoticiaData)
    modifies instance`nombreNoticia, instance`categorias, instance`palabrasClave, instance`subtitulo, instance`contenido
    ensures instance.nombreNoticia == Merge(old(instance.nombreNoticia), data.nombreNoticia)
    ensures instance.categorias == MergeTruthy(old(instance.categorias), data.categorias)
    ensures instance.palabrasClave == Merge(old(instance.palabrasClave), data.palabrasClave)
    ensures instance.subtitulo == Merge(old(instance.subtitulo), data.subtitulo)
    ensures instance.contenido == Merge(old(instance.contenido), data.contenido)
  {
    instance.nombreNoticia := Merge(instance.nombreNoticia, data.nombreNoticia);
    instance.categorias := MergeTruthy(instance.categorias, data.categorias);
    instance.palabrasClave := Merge(instance.palabrasClave, data.palabrasClave);
    instance.subtitulo := Merge(instance.subtitulo, data.subtitulo);
    instance.contenido := Merge(instance.contenido, data.contenido);
  }

  /** The other columns of the copy; `estado` is a foreign key, copied as supplied. */
  method MergeFlagFields(instance: Noticia, data: NoticiaData)
    modifies instance`fechaPublicacion, instance`soloParaSubscriptores, instance`tieneComentarios
    modifies instance`estado, instance`autor
    ensures instance.fechaPublicacion == Merge(old(instance.fechaPublicacion), data.fechaPublicacion)
    ensures instance.soloParaSubscriptores == Merge(old(instance.soloParaSubscriptores), data.soloParaSubscriptores)
    ensures instance.tieneComentarios == Merge(old(instance.tieneComentarios), data.tieneComentarios)
    ensures instance.estado == (if data.estado.Some? then Some(data.estado.value) else old(instance.estado))
    ensures instance.autor == Merge(old(instance.autor), data.autor)
  {
    instance.fechaPublicacion := Merge(instance.fechaPublicacion, data.fechaPublicacion);
    instance.soloParaSubscriptores := Merge(instance.soloParaSubscriptores, data.soloParaSubscriptores);
    instance.tieneComentarios := Merge(instance.tieneComentarios, data.tieneComentarios);
    if data.estado.Some? {
      instance.estado := Some(data.estado.value);
    }
    instance.autor := Merge(instance.autor, data.autor);
  }

  /** The image loop of `NoticiaSerializer.update`: `imagen_1` ... `imagen_6` are
      each overwritten only by a truthy URL. */
  method MergeImages(instance: Noticia, supplied: seq<Option<string>>)
    requires instance.Valid() && |supplied| == 6
    modifies instance`imagenes
    ensures instance.Valid()
    ensures forall i :: 0 <= i < 6 ==> instance.imagenes[i] == MergeTruthy(old(instance.imagenes[i]), supplied[i])
  {
    for i := 0 to 6
      invariant |instance.imagenes| == 6
      invariant forall j :: 0 <= j < i ==> instance.imagenes[j] == MergeTruthy(old(instance.imagenes[j]), supplied[j])
      invariant forall j :: i <= j < 6 ==> instance.imagenes[j] == old(instance.imagenes[j])
    {
      var url := supplied[i];
      if url.Some? && url.value != "" {
        instance.imagenes := instance.imagenes[i := url.value];
      }
    }
  }

  /** `NoticiaSerializer.update` before its save: the fields and images merged as
      above; the editors, when supplied, become exactly the supplied set and are
      otherwise untouched. */
  method MergeRequest(instance: Noticia, data: NoticiaData)
    requires instance.Valid() && |data.imagenes| == 6
    modifies instance
    ensures instance.Valid()
    ensures instance.categorias == MergeTruthy(old(instance.categorias), data.categorias)
    ensures instance.nombreNoticia == Merge(old(instance.nombreNoticia), data.nombreNoticia)
    ensures instance.autor == Merge(old(instance.autor), data.autor)
    ensures forall i :: 0 <= i < 6 ==> instance.imagenes[i] == MergeTruthy(old(instance.imagenes[i]), data.imagenes[i])
    ensures instance.fechaPublicacion == Merge(old(instance.fechaPublicacion), data.fechaPublicacion)
    ensures instance.palabrasClave == Merge(old(instance.palabrasClave), data.palabrasClave)
    ensures instance.subtitulo == Merge(old(instance.subtitulo), data.subtitulo)
    ensures instance.contenido == Merge(old(instance.contenido), data.contenido)
    ensures instance.soloParaSubscriptores == Merge(old(instance.soloParaSubscriptores), data.soloParaSubscriptores)
    ensures instance.tieneComentarios == Merge(old(instance.tieneComentarios), data.tieneComentarios)
    ensures instance.estado == (if data.estado.Some? then Some(data.estado.value) else old(instance.estado))
    ensures instance.id == old(instance.id) && instance.imagenCabecera == old(instance.imagenCabecera)
    ensures instance.editores == Merge(old(instance.editores), data.editores)
    ensures instance.contadorVisitas == old(instance.contadorVisitas)
    ensures instance.ultimaActualizacionContador == old(instance.ultimaActualizacionContador)
    ensures instance.slug == old(instance.slug)
  {
    MergeFields(instance, data);
    MergeImages(instance, data.imagenes);
    if data.editores.Some? {
      instance.editores := data.editores.value;
    }
  }

  /** `NoticiaSerializer.update`: the request merged into the article, which is then
      saved. */
  method UpdateNoticia(instance: Noticia, data: NoticiaData, slugify: string -> string, taken: set<string>)
    returns (outcome: SaveOutcome)
    requires instance.Valid() && |data.imagenes| == 6
    modifies instance
    ensures instance.Valid()
    ensures instance.categorias == MergeTruthy(old(instance.categorias), data.categorias)
    ensures instance.nombreNoticia == Merge(old(instance.nombreNoticia), data.nombreNoticia)
    ensures instance.autor == Merge(old(instance.autor), data.autor)
    ensures forall i :: 0 <= i < 6 ==> instance.imagenes[i] == MergeTruthy(old(instance.imagenes[i]), data.imagenes[i])
    ensures instance.fechaPublicacion == Merge(old(instance.fechaPublicacion), data.fechaPublicacion)
    ensures instance.palabrasClave == Merge(old(instance.palabrasClave), data.palabrasClave)
    ensures instance.subtitulo == Merge(old(instance.subtitulo), data.subtitulo)
    ensures instance.contenido == Merge(old(instance.contenido), data.contenido)
    ensures instance.soloParaSubscriptores == Merge(old(instance.soloParaSubscriptores), data.soloParaSubscriptores)
    ensures instance.tieneComentarios == Merge(old(instance.tieneComentarios), data.tieneComentarios)
    ensures instance.estado == (if data.estado.Some? then Some(data.estado.value) else old(instance.estado))
    ensures instance.id == old(instance.id) && instance.imagenCabecera == old(instance.imagenCabecera)
    ensures instance.editores == Merge(old(instance.editores), data.editores)
    ensures instance.contadorVisitas == old(instance.contadorVisitas)
    ensures instance.ultimaActualizacionContador == old(instance.ultimaActualizacionContador)
    ensures outcome == SaveCheck(instance.categorias)
    ensures outcome.Rejected? || old(instance.slug) != "" ==> instance.slug == old(instance.slug)
    ensures outcome.Saved? && old(instance.slug) == "" ==> instance.slug !in taken
  {
    MergeRequest(instance, data);
    outcome := instance.Save(slugify, taken, false);
  }

  /** `NoticiaSerializer.create` as written: the article is built from the validated
      data (the fields the serializer requires are present; its categories `''`
      unless a non-empty value was given) and stored by `Noticia.objects.create`,
      which calls `save(force_insert=True)`. That save either refuses the categories
      or, having inserted the row, inserts it again and raises; either way the
      editors are never assigned and the request fails. */
  method CreateNoticia(data: NoticiaData, id: nat, now: Instant, slugify: string -> string, taken: set<string>)
    returns (noticia: Noticia, outcome: SaveOutcome)
    requires data.nombreNoticia.Some? && data.fechaPublicacion.Some? && data.palabrasClave.Some?
    requires data.autor.Some? && data.estado.Some? && |data.imagenes| == 6
    ensures fresh(noticia) && noticia.Valid()
    ensures CreatedFromData(noticia, data, id)
    ensures noticia.editores == {}
    ensures SaveCheck(noticia.categorias).Rejected? ==> outcome == SaveCheck(noticia.categorias)
    ensures SaveCheck(noticia.categorias).Saved? ==> outcome == DuplicateKey
    ensures outcome != Saved
  {
    noticia := NewNoticia(data, id, now);
    outcome := noticia.Save(slugify, taken, true);
  }

  /** `NoticiaSerializer.create` with only the first of `Noticia.save`'s two writes
      inserting: an article whose categories the save-time check accepts is stored,
      with a fresh slug, and then receives the supplied editors. */
  method CreateNoticiaCorrected(data: NoticiaData, id: nat, now: Instant, slugify: string -> string,
                                taken: set<string>)
    returns (noticia: Noticia, outcome: SaveOutcome)
    requires data.nombreNoticia.Some? && data.fechaPublicacion.Some? && data.palabrasClave.Some?
    requires data.autor.Some? && data.estado.Some? && |data.imagenes| == 6
    ensures fresh(noticia) && noticia.Valid()
    ensures CreatedFromData(noticia, data, id)
    ensures outcome == SaveCheck(noticia.categorias)
    ensures outcome.Saved? ==> noticia.slug !in taken && noticia.editores == Merge({}, data.editores)
    ensures outcome.Rejected? ==> noticia.editores == {}
  {
    noticia := NewNoticia(data, id, now);
    outcome := noticia.Save(slugify, taken, false);
    if outcome.Saved? && data.editores.Some? && data.editores.value != {} {
      noticia.editores := data.editores.value;
    }
  }

  /** The columns of a new article built from the validated data: the given values,
      the model's defaults for the optional ones the request left out (a visit
      count of 0 unless the request gave one). */
  ghost predicate CreatedFromData(noticia: Noticia, data: NoticiaData, id: nat)
    requires data.nombreNoticia.Some? && data.fechaPublicacion.Some? && data.palabrasClave.Some?
    requires data.autor.Some? && data.estado.Some? && |data.imagenes| == 6
    reads noticia
  {
    && noticia.id == id && noticia.nombreNoticia == data.nombreNoticia.value
    && noticia.autor == data.autor.value && noticia.estado == Some(data.estado.value)
    && noticia.fechaPublicacion == data.fechaPublicacion.value
    && noticia.palabrasClave == data.palabrasClave.value
    && noticia.categorias == CreateCategorias(data.categorias)
    && |noticia.imagenes| == 6
    && (forall i :: 0 <= i < 6 ==> noticia.imagenes[i] == MergeTruthy("", data.imagenes[i]))
    && noticia.imagenCabecera == ""
    && noticia.subtitulo == Merge("default content", data.subtitulo)
    && noticia.contenido == Merge("default content", data.contenido)
    && noticia.soloParaSubscriptores == Merge(false, data.soloParaSubscriptores)
    && noticia.tieneComentarios == Merge(false, data.tieneComentarios)
    && noticia.contadorVisitas == Merge(0, data.contadorVisitas)
  }

  /** `Noticia(**validated_data)` before its first save: the row built from the
      data, with no slug yet and no editors. */
  method NewNoticia(data: NoticiaData, id: nat, now: Instant) returns (noticia: Noticia)
    requires data.nombreNoticia.Some? && data.fechaPublicacion.Some? && data.palabrasClave.Some?
    requires data.autor.Some? && data.estado.Some? && |data.imagenes| == 6
    ensures fresh(noticia) && noticia.Valid()
    ensures CreatedFromData(noticia, data, id)
    ensures noticia.slug == "" && noticia.editores == {}
  {
    noticia := new Noticia(id, data.nombreNoticia.value, data.autor.value, data.fechaPublicacion.value, now);
    FillCreated(noticia, data);
  }

  /** The columns `create` takes from the data, the model's defaults standing in
      for the optional ones the request left out. */
  method FillCreated(noticia: Noticia, data: NoticiaData)
    requires data.palabrasClave.Some? && data.estado.Some? && |data.imagenes| == 6
    modifies noticia`palabrasClave, noticia`estado, noticia`categorias, noticia`subtitulo, noticia`contenido
    modifies noticia`soloParaSubscriptores, noticia`tieneComentarios, noticia`imagenes, noticia`contadorVisitas
    ensures noticia.Valid()
    ensures noticia.palabrasClave == data.palabrasClave.value && noticia.estado == Some(data.estado.value)
    ensures noticia.categorias == CreateCategorias(data.categorias)
    ensures noticia.subtitulo == Merge("default content", data.subtitulo) && noticia.contenido == Merge("default content", data.contenido)
    ensures noticia.soloParaSubscriptores == Merge(false, data.soloParaSubscriptores)
    ensures noticia.tieneComentarios == Merge(false, data.tieneComentarios)
    ensures forall i :: 0 <= i < 6 ==> noticia.imagenes[i] == MergeTruthy("", data.imagenes[i])
    ensures noticia.contadorVisitas == Merge(0, data.contadorVisitas)
  {
    noticia.palabrasClave := data.palabrasClave.value;
    noticia.contadorVisitas := Merge(0, data.contadorVisitas);
    noticia.estado := Some(data.estado.value);
    noticia.categorias := CreateCategorias(data.categorias);
    noticia.subtitulo := Merge("default content", data.subtitulo);
    noticia.contenido := Merge("default content", data.contenido);
    noticia.soloParaSubscriptores := Merge(false, data.soloParaSubscriptores);
    noticia.tieneComentarios := Merge(false, data.tieneComentarios);
    noticia.imagenes := seq(6, i requires 0 <= i < 6 => MergeTruthy("", data.imagenes[i]));
  }

  // ===========================================================================
  // Profile photo
  // ===========================================================================

  /** Why a profile-photo value was refused. */
  datatype FotoError = NotUrlOrPath

  /** `UserProfileSerializer.validate_foto_perfil`: a value under `MEDIA_URL` is kept;
      another absolute path is put under `MEDIA_URL` (its trailing slashes dropped);
      anything else is refused. */
  function ValidateFotoPerfil(value: string, mediaUrl: string): (r: Result<string, FotoError>)
    ensures r.Ok? <==> StartsWith(value, mediaUrl) || StartsWith(value, "/")
    ensures StartsWith(value, mediaUrl) ==> r == Ok(value)
    ensures !StartsWith(value, mediaUrl) && StartsWith(value, "/") ==> r == Ok(RStripChar(mediaUrl, '/') + value)
  {
    if StartsWith(value, mediaUrl) then Ok(value)
    else if StartsWith(value, "/") then Ok(RStripChar(mediaUrl, '/') + value)
    else Err(NotUrlOrPath)
  }

  /** The `foto_perfil` entry `UserProfileSerializer.update` passes on to the model
      (`None`: no entry): a value under `MEDIA_URL` loses that prefix, another value
      starting with `/` loses all its leading slashes, anything else is passed
      unchanged. An absent value is read as `''`. */
  function NormalizeFotoPerfil(foto: Option<string>, mediaUrl: string): (r: Option<string>)
    ensures StartsWith(OrEmptyText(foto), mediaUrl) ==> r == Some(OrEmptyText(foto)[|mediaUrl|..])
    ensures !StartsWith(OrEmptyText(foto), mediaUrl) && StartsWith(OrEmptyText(foto), "/") ==>
      r == Some(LStripChar(OrEmptyText(foto), '/'))
    ensures !StartsWith(OrEmptyText(foto), mediaUrl) && !StartsWith(OrEmptyText(foto), "/") ==> r == foto
  {
    var f := OrEmptyText(foto);
    if StartsWith(f, mediaUrl) then Some(f[|mediaUrl|..])
    else if StartsWith(f, "/") then Some(LStripChar(f, '/'))
    else foto
  }

  /** `data.get(name, '')` */
  function OrEmptyText(field: Option<string>): (r: string)
    ensures field.Some? ==> r == field.value
    ensures field.None? ==> r == ""
  {
    if field.Some? then field.value else ""
  }

  /** A validated photo path is stored relative to the media root: with a
      `MEDIA_URL` of the form `p/` (one trailing slash), a value under `MEDIA_URL`
      is stored without it and another absolute path without its first slash. */
  lemma FotoPerfilStoredRelative(value: string, mediaUrl: string, p: string)
    requires mediaUrl == p + "/" && (p == "" || p[|p| - 1] != '/')
    requires ValidateFotoPerfil(value, mediaUrl).Ok?
    ensures StartsWith(value, mediaUrl) ==>
      NormalizeFotoPerfil(Some(ValidateFotoPerfil(value, mediaUrl).value), mediaUrl) == Some(value[|mediaUrl|..])
    ensures !StartsWith(value, mediaUrl) ==>
      NormalizeFotoPerfil(Some(ValidateFotoPerfil(value, mediaUrl).value), mediaUrl) == Some(value[1..])
  {
    assert RStripChar(mediaUrl, '/') == p by {
      assert mediaUrl[..|mediaUrl| - 1] == p;
    }
    if !StartsWith(value, mediaUrl) {
      var w := p + value;
      assert w[..|mediaUrl|] == mediaUrl by {
        assert w[..|mediaUrl|] == p + [value[0]];
      }
      assert w[|mediaUrl|..] == value[1..];
    }
  }

  /** A `UserProfile` row. */
  class UserProfile {
    var nombre: string
    var apellido: string
    var fotoPerfil: Option<string>
    var descripcionUsuario: Option<string>

    constructor (nombre: string, apellido: string)
      ensures this.nombre == nombre && this.apellido == apellido
      ensures fotoPerfil == None && descripcionUsuario == None
    {
      this.nombre := nombre;
      this.apellido := apellido;
      fotoPerfil := None;
      descripcionUsuario := None;
    }

    /** `UserProfileSerializer.update`: an uploaded local photo sets the photo to the
        upload's URL (`uploaded`, null when the upload failed), but a `foto_perfil`
        entry, normalised, takes precedence; the description is copied when given;
        the name and surname never change. */
    method Update(foto: Option<string>, localPhoto: bool, uploaded: Option<string>,
                  descripcion: Option<string>, mediaUrl: string)
      modifies this
      ensures nombre == old(nombre) && apellido == old(apellido)
      ensures NormalizeFotoPerfil(foto, mediaUrl).Some? ==> fotoPerfil == NormalizeFotoPerfil(foto, mediaUrl)
      ensures NormalizeFotoPerfil(foto, mediaUrl).None? ==> fotoPerfil == (if localPhoto then uploaded else old(fotoPerfil))
      ensures descripcionUsuario == (if descripcion.Some? then descripcion else old(descripcionUsuario))
    {
      var entry := NormalizeFotoPerfil(foto, mediaUrl);
      if localPhoto {
        fotoPerfil := uploaded;
      }
      if entry.Some? {
        fotoPerfil := entry;
      }
      if descripcion.Some? {
        descripcionUsuario := descripcion;
      }
    }
  }

  // ===========================================================================
  // Password reset
  // ===========================================================================

  /** Why a password reset was refused: the fields that failed their own checks,
      the two passwords differing, or the token not being a valid one. */
  datatype ResetError = FieldErrors(token: bool, password: bool, confirmPassword: bool)
                      | PasswordsDiffer
                      | TokenInvalid

  /** The data a successful reset validation yields (each field stripped). */
  datatype ResetData = ResetData(token: string, password: string)

  /** A required `CharField`: present, non-blank once stripped, and within the
      length bounds. */
  predicate CharFieldValid(value: Option<string>, minLength: nat, maxLength: nat) {
    value.Some? && Strip(value.value) != "" && minLength <= |Strip(value.value)| <= maxLength
  }

  /** The length bound that never binds (no `max_length`). */
  function Unbounded(value: Option<string>): nat {
    if value.Some? then |value.value| else 0
  }

  /** `ResetPasswordSerializer` validation: the field checks first (a token of at most
      6 characters, passwords of at least 8), then the passwords must match, then the
      token must exist and be valid (`tokenValid`, the `PasswordResetToken` lookup
      and its `is_valid`). */
  function ValidateResetPassword(token: Option<string>, password: Option<string>, confirmPassword: Option<string>,
                                 tokenValid: string -> bool): (r: Result<ResetData, ResetError>)
    ensures r.Ok? <==>
      && CharFieldValid(token, 0, 6)
      && CharFieldValid(password, 8, Unbounded(password))
      && CharFieldValid(confirmPassword, 8, Unbounded(confirmPassword))
      && Strip(password.value) == Strip(confirmPassword.value)
      && tokenValid(Strip(token.value))
    ensures r.Ok? ==> r.value.password == Strip(password.value) && |r.value.password| >= 8 && r.value.token == Strip(token.value)
    ensures (r.Err? && r.error.FieldErrors?) <==>
      !(CharFieldValid(token, 0, 6) && CharFieldValid(password, 8, Unbounded(password)) &&
        CharFieldValid(confirmPassword, 8, Unbounded(confirmPassword)))
    ensures r.Err? && r.error.FieldErrors? ==>
      r.error == FieldErrors(!CharFieldValid(token, 0, 6), !CharFieldValid(password, 8, Unbounded(password)),
                             !CharFieldValid(confirmPassword, 8, Unbounded(confirmPassword)))
    ensures r == Err(PasswordsDiffer) ==> Strip(password.value) != Strip(confirmPassword.value)
    ensures r == Err(TokenInvalid) ==> Strip(password.value) == Strip(confirmPassword.value) && !tokenValid(Strip(token.value))
  {
    var tokenOk := CharFieldValid(token, 0, 6);
    var passwordOk := CharFieldValid(password, 8, Unbounded(password));
    var confirmOk := CharFieldValid(confirmPassword, 8, Unbounded(confirmPassword));
    if !(tokenOk && passwordOk && confirmOk) then Err(FieldErrors(!tokenOk, !passwordOk, !confirmOk))
    else if Strip(password.value) != Strip(confirmPassword.value) then Err(PasswordsDiffer)
    else if !tokenValid(Strip(token.value)) then Err(TokenInvalid)
    else Ok(ResetData(Strip(token.value), Strip(password.value)))
  }
}
