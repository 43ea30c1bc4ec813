/** The request-level rules of `NoticiaViewSet`: reading the `limit` parameter,
    resolving `"<id>-<slug>"` lookups, finding the client address, the ranking and
    section queries, the visit statistics, and `retrieve`, which counts a visit. */
module NoticiaViews {
  import opened Common
  import opened Text
  import opened Ranking
  import opened Models

  /** The `EstadoPublicacion` id of a published article. */
  const ESTADO_PUBLICADO: nat := 3

  /** The default `limit` of each endpoint. */
  const BUSCAR_LIMIT: nat := 20
  const MAS_VISTAS_LIMIT: nat := 10
  const MAS_LEIDAS_LIMIT: nat := 10
  const RECIENTES_LIMIT: nat := 5
  const DESTACADAS_LIMIT: nat := 12
  const SECTION_LIMIT: nat := 7
  const POR_CATEGORIA_LIMIT: nat := 60

  // ===========================================================================
  // The `limit` query parameter
  // ===========================================================================

  /** `int(request.query_params.get('limit', default))` with `ValueError` caught, as
      written: any integer the text denotes, the default when it is absent or not
      an integer. A negative value gets through. */
  function LimitParamAsWritten(param: Option<string>, default: nat): (limit: int)
    ensures param.None? ==> limit == default
    ensures param.Some? && ParseInt(param.value).None? ==> limit == default
    ensures param.Some? && ParseInt(param.value).Some? ==> limit == ParseInt(param.value).value
  {
    match param
    case None => default
    case Some(text) =>
      match ParseInt(text)
      case None => default
      case Some(n) => n
  }

  /** A negative `limit` (`limit=-1`, or `-` then any positive numeral) reaches the
      queryset slice, which raises: the endpoint answers with a server error
      instead of falling back to its default. */
  lemma NegativeLimitRaises(rows: seq<Row>, default: nat, n: nat)
    requires n >= 1
    ensures LimitParamAsWritten(Some("-" + NatToString(n)), default) == -(n as int)
    ensures Slice(rows, LimitParamAsWritten(Some("-" + NatToString(n)), default)).Err?
  {
    ParseIntOfNegated(n);
  }

  /** The `limit` parameter as the endpoints evidently mean it: the number the text
      denotes when that is a non-negative integer, the endpoint's default otherwise
      (absent, not an integer, or negative). */
  function LimitParam(param: Option<string>, default: nat): (limit: nat)
    ensures param.Some? && ParseInt(param.value).Some? && ParseInt(param.value).value >= 0 ==>
      limit == ParseInt(param.value).value
    ensures param.None? || ParseInt(param.value).None? || ParseInt(param.value).value < 0 ==> limit == default
    ensures LimitParamAsWritten(param, default) >= 0 ==> limit == LimitParamAsWritten(param, default)
  {
    var n := LimitParamAsWritten(param, default);
    if n < 0 then default else n
  }

  /** With the corrected reading, no `limit` makes the slice raise. */
  lemma LimitNeverRaises(rows: seq<Row>, param: Option<string>, default: nat)
    ensures Slice(rows, LimitParam(param, default)) == Ok(Take(rows, LimitParam(param, default)))
  {
  }

  /** `limit=<n>` gives `n` and no `limit` gives the default, both as written and
      in the corrected reading. */
  lemma LimitOfNumeral(n: nat, default: nat)
    ensures LimitParamAsWritten(Some(NatToString(n)), default) == n
    ensures LimitParam(Some(NatToString(n)), default) == n
    ensures LimitParam(None, default) == default
  {
    ParseIntOfNatToString(n);
  }

  /** The `limit` of `list`: used only when the text is all digits (`isdigit`),
      otherwise the list is paginated. */
  function ListLimit(param: Option<string>): (limit: Option<nat>)
    ensures limit.Some? <==> param.Some? && IsDigits(param.value)
    ensures limit.Some? ==> limit.value == DigitsValue(param.value)
  {
    if param.Some? && param.value != "" && IsDigits(param.value) then Some(DigitsValue(param.value)) else None
  }

  /** Whatever `list` admits as a limit, `int()` reads the same way. */
  lemma ListLimitAgreesWithInt(s: string)
    requires ListLimit(Some(s)).Some?
    ensures ParseInt(s) == Some(ListLimit(Some(s)).value as int)
  {
    ParseIntOfDigits(s);
  }

  /** `limit=<n>` gives `list` the limit `n`. */
  lemma ListLimitOfNumeral(n: nat)
    ensures ListLimit(Some(NatToString(n))) == Some(n)
  {
    NatToStringValue(n);
  }

  // ===========================================================================
  // Looking up one article and the client address
  // ===========================================================================

  /** The part of the lookup used as primary key: what precedes the first `'-'`,
      or the whole lookup when it has none. */
  function LookupPk(lookup: string): (pk: string)
    ensures '-' !in pk
    ensures '-' !in lookup ==> pk == lookup
    ensures '-' in lookup ==> exists rest :: lookup == pk + "-" + rest
  {
    if lookup != "" && '-' in lookup then
      var pieces := Split(lookup, '-');
      JoinSplit(lookup, '-');
      assert lookup == pieces[0] + "-" + Join(pieces[1..], '-');
      pieces[0]
    else lookup
  }

  /** What `get_object` finds: the key is not an integer (the ORM raises), no
      article has that key, or the article with it. */
  datatype Lookup = BadPk | NotFound | Found(id: nat)

  /** `NoticiaViewSet.get_object` over the ids present in the table. */
  function GetObject(ids: set<nat>, lookup: string): (r: Lookup)
    ensures r.BadPk? <==> ParseInt(LookupPk(lookup)).None?
    ensures r.Found? ==> r.id in ids && ParseInt(LookupPk(lookup)) == Some(r.id as int)
    ensures r.NotFound? ==> forall id :: id in ids ==> ParseInt(LookupPk(lookup)) != Some(id as int)
  {
    match ParseInt(LookupPk(lookup))
    case None => BadPk
    case Some(pk) => if pk >= 0 && pk as nat in ids then Found(pk as nat) else NotFound
  }

  /** `"<id>-<slug>"` and `"<id>"` find the same article, whatever the slug. */
  lemma SlugDoesNotMatter(ids: set<nat>, id: nat, slug: string)
    ensures GetObject(ids, NatToString(id) + "-" + slug) == GetObject(ids, NatToString(id))
    ensures GetObject(ids, NatToString(id)) == if id in ids then Found(id) else NotFound
  {
    var t := NatToString(id);
    FirstPieceBeforeSep(t, slug, '-');
    assert t + "-" + slug == t + ['-'] + slug;
    assert '-' in t + "-" + slug by { assert (t + "-" + slug)[|t|] == '-'; }
    ParseIntOfNatToString(id);
  }

  /** The client address of `retrieve`: the first comma-separated field of
      `X-Forwarded-For` when that header is non-empty, else `REMOTE_ADDR`. */
  function ClientIp(forwardedFor: Option<string>, remoteAddr: Option<string>): (ip: Option<string>)
    ensures forwardedFor.Some? && forwardedFor.value != "" ==> ip.Some? && ',' !in ip.value
    ensures forwardedFor.None? || forwardedFor.value == "" ==> ip == remoteAddr
  {
    if forwardedFor.Some? && forwardedFor.value != "" then Some(Split(forwardedFor.value, ',')[0])
    else remoteAddr
  }

  /** The first proxy hop is the address recorded, whatever follows it. */
  lemma FirstForwardedAddress(first: string, rest: string, remoteAddr: Option<string>)
    requires ',' !in first
    ensures ClientIp(Some(first + "," + rest), remoteAddr) == Some(first)
    ensures first != "" ==> ClientIp(Some(first), remoteAddr) == Some(first)
  {
    assert first + "," + rest == first + [','] + rest;
    FirstPieceBeforeSep(first, rest, ',');
  }

  // ===========================================================================
  // Ranking and section queries
  // ===========================================================================

  predicate Published(x: Row) {
    x.estado == Some(ESTADO_PUBLICADO)
  }

  /** The order keys. */
  function VisitasKey(x: Row): int { x.contadorVisitas }
  function VisitasTotalKey(x: Row): int { x.contadorVisitasTotal }
  function FechaKey(x: Row): int { x.fechaPublicacion }

  /** Published, and its visit window was reset within the last seven days. */
  predicate RecentlyCounted(x: Row, now: Instant) {
    Published(x) && x.ultimaActualizacionContador >= now - SEVEN_DAYS
  }

  /** An endpoint's query: `filter`, `order_by('-key')`, then `[:limit]` with the
      `limit` read as the view reads it. A negative limit makes the slice raise,
      and the client gets a server error. */
  function Ranked(rows: seq<Row>, keep: Row -> bool, key: Row -> int, limitParam: Option<string>, default: nat)
    : (r: Result<seq<Row>, SliceError>)
    ensures r.Err? <==> LimitParamAsWritten(limitParam, default) < 0
    ensures r.Ok? ==> r.value == TopN(rows, keep, key, LimitParamAsWritten(limitParam, default) as nat)
    ensures r.Ok? ==> |r.value| == Min(LimitParamAsWritten(limitParam, default), |Filter(rows, keep)|)
  {
    var limit := LimitParamAsWritten(limitParam, default);
    var r := Slice(SortDesc(Filter(rows, keep), key), limit);
    if r.Ok? then TopNSelection(rows, keep, key, limit as nat, r.value); r else r
  }

  function Min(a: int, b: int): int {
    if a < b then a else b
  }

  /** What an endpoint's query returns is ordered by the key, and no admitted row
      left out ranks above one returned. */
  lemma RankedOrder(rows: seq<Row>, keep: Row -> bool, key: Row -> int, limitParam: Option<string>, default: nat,
                    r: seq<Row>)
    requires Ranked(rows, keep, key, limitParam, default) == Ok(r)
    ensures SortedDesc(r, key)
    ensures forall x, k :: x in rows && keep(x) && x !in r && 0 <= k < |r| ==> key(x) <= key(r[k])
  {
    TopNOrder(rows, keep, key, LimitParamAsWritten(limitParam, default) as nat, r);
  }

  /** The filters of `mas_vistas` and of a section, as functions on rows. */
  function CountedSince(now: Instant): Row -> bool {
    (x: Row) => RecentlyCounted(x, now)
  }

  /** `mas_vistas` */
  function MasVistas(rows: seq<Row>, now: Instant, limitParam: Option<string>): (r: Result<seq<Row>, SliceError>)
    ensures r.Err? <==> LimitParamAsWritten(limitParam, MAS_VISTAS_LIMIT) < 0
    ensures r.Ok? ==> |r.value| == Min(LimitParamAsWritten(limitParam, MAS_VISTAS_LIMIT), |Filter(rows, CountedSince(now))|)
  {
    Ranked(rows, CountedSince(now), VisitasKey, limitParam, MAS_VISTAS_LIMIT)
  }

  /** `mas_vistas` returns only published articles of the table whose counter
      window started in the last seven days, at most `limit` of them, and all of
      them when fewer qualify. */
  lemma MasVistasSelection(rows: seq<Row>, now: Instant, limitParam: Option<string>, r: seq<Row>)
    requires MasVistas(rows, now, limitParam) == Ok(r)
    ensures forall k :: 0 <= k < |r| ==> r[k] in rows && Published(r[k]) && r[k].ultimaActualizacionContador >= now - SEVEN_DAYS
    ensures |r| <= LimitParamAsWritten(limitParam, MAS_VISTAS_LIMIT)
    ensures |r| == LimitParamAsWritten(limitParam, MAS_VISTAS_LIMIT) || forall x :: x in rows && RecentlyCounted(x, now) ==> x in r
  {
    var n := LimitParamAsWritten(limitParam, MAS_VISTAS_LIMIT) as nat;
    TopNSelection(rows, CountedSince(now), VisitasKey, n, r);
  }

  /** `mas_vistas` lists most visits first, and no qualifying article left out has
      more visits than one returned. */
  lemma MasVistasOrder(rows: seq<Row>, now: Instant, limitParam: Option<string>, r: seq<Row>)
    requires MasVistas(rows, now, limitParam) == Ok(r)
    ensures forall i, j :: 0 <= i < j < |r| ==> r[i].contadorVisitas >= r[j].contadorVisitas
    ensures forall x, k :: x in rows && RecentlyCounted(x, now) && x !in r && 0 <= k < |r| ==>
      x.contadorVisitas <= r[k].contadorVisitas
  {
    MostVisitedFirst(rows, CountedSince(now), limitParam, MAS_VISTAS_LIMIT, r);
    forall x, k | x in rows && RecentlyCounted(x, now) && x !in r && 0 <= k < |r|
      ensures x.contadorVisitas <= r[k].contadorVisitas
    {
      assert CountedSince(now)(x);
    }
  }

  /** A query ranked by `contador_visitas` lists the most visited first, and no
      admitted row left out has more visits than one returned. */
  lemma MostVisitedFirst(rows: seq<Row>, keep: Row -> bool, limitParam: Option<string>, default: nat, r: seq<Row>)
    requires Ranked(rows, keep, VisitasKey, limitParam, default) == Ok(r)
    ensures forall i, j :: 0 <= i < j < |r| ==> r[i].contadorVisitas >= r[j].contadorVisitas
    ensures forall x, k :: x in rows && keep(x) && x !in r && 0 <= k < |r| ==>
      x.contadorVisitas <= r[k].contadorVisitas
  {
    RankedOrder(rows, keep, VisitasKey, limitParam, default, r);
    forall i, j | 0 <= i < j < |r| ensures r[i].contadorVisitas >= r[j].contadorVisitas {
      assert VisitasKey(r[i]) >= VisitasKey(r[j]);
    }
    forall x, k | x in rows && keep(x) && x !in r && 0 <= k < |r|
      ensures x.contadorVisitas <= r[k].contadorVisitas
    {
      assert VisitasKey(x) <= VisitasKey(r[k]);
    }
  }

  /** `mas_leidas` */
  function MasLeidas(rows: seq<Row>, limitParam: Option<string>): (r: Result<seq<Row>, SliceError>)
    ensures r.Err? <==> LimitParamAsWritten(limitParam, MAS_LEIDAS_LIMIT) < 0
    ensures r.Ok? ==> |r.value| == Min(LimitParamAsWritten(limitParam, MAS_LEIDAS_LIMIT), |Filter(rows, Published)|)
  {
    Ranked(rows, Published, VisitasTotalKey, limitParam, MAS_LEIDAS_LIMIT)
  }

  /** `mas_leidas` returns only published articles of the table, at most `limit`
      of them, and all of them when fewer are published. */
  lemma MasLeidasSelection(rows: seq<Row>, limitParam: Option<string>, r: seq<Row>)
    requires MasLeidas(rows, limitParam) == Ok(r)
    ensures forall k :: 0 <= k < |r| ==> r[k] in rows && Published(r[k])
    ensures |r| <= LimitParamAsWritten(limitParam, MAS_LEIDAS_LIMIT)
    ensures |r| == LimitParamAsWritten(limitParam, MAS_LEIDAS_LIMIT) || forall x :: x in rows && Published(x) ==> x in r
  {
    TopNSelection(rows, Published, VisitasTotalKey, LimitParamAsWritten(limitParam, MAS_LEIDAS_LIMIT) as nat, r);
  }

  /** `mas_leidas` lists the highest all-time count first, and no published
      article left out has a higher count than one returned. */
  lemma MasLeidasOrder(rows: seq<Row>, limitParam: Option<string>, r: seq<Row>)
    requires MasLeidas(rows, limitParam) == Ok(r)
    ensures forall i, j :: 0 <= i < j < |r| ==> r[i].contadorVisitasTotal >= r[j].contadorVisitasTotal
    ensures forall x, k :: x in rows && Published(x) && x !in r && 0 <= k < |r| ==>
      x.contadorVisitasTotal <= r[k].contadorVisitasTotal
  {
    TopNOrder(rows, Published, VisitasTotalKey, LimitParamAsWritten(limitParam, MAS_LEIDAS_LIMIT) as nat, r);
  }

  /** The published articles, newest first, at most `n`: `recientes` and
      `destacadas` differ only in their default limit. */
  function Newest(rows: seq<Row>, n: nat): (r: seq<Row>)
    ensures |r| == Min(n, |Filter(rows, Published)|)
  {
    var r := TopN(rows, Published, FechaKey, n);
    TopNSelection(rows, Published, FechaKey, n, r);
    r
  }

  /** `recientes` */
  function Recientes(rows: seq<Row>, limitParam: Option<string>): (r: Result<seq<Row>, SliceError>)
    ensures r.Err? <==> LimitParamAsWritten(limitParam, RECIENTES_LIMIT) < 0
    ensures r.Ok? ==> |r.value| == Min(LimitParamAsWritten(limitParam, RECIENTES_LIMIT), |Filter(rows, Published)|)
  {
    Ranked(rows, Published, FechaKey, limitParam, RECIENTES_LIMIT)
  }

  /** `destacadas` */
  function Destacadas(rows: seq<Row>, limitParam: Option<string>): (r: Result<seq<Row>, SliceError>)
    ensures r.Err? <==> LimitParamAsWritten(limitParam, DESTACADAS_LIMIT) < 0
    ensures r.Ok? ==> |r.value| == Min(LimitParamAsWritten(limitParam, DESTACADAS_LIMIT), |Filter(rows, Published)|)
  {
    Ranked(rows, Published, FechaKey, limitParam, DESTACADAS_LIMIT)
  }

  /** `recientes` and `destacadas` return only published articles of the table,
      at most `n` of them, and all of them when fewer are published. */
  lemma NewestSelection(rows: seq<Row>, n: nat, r: seq<Row>)
    requires r == Newest(rows, n)
    ensures forall k :: 0 <= k < |r| ==> r[k] in rows && Published(r[k])
    ensures |r| <= n
    ensures |r| == n || forall x :: x in rows && Published(x) ==> x in r
  {
    TopNSelection(rows, Published, FechaKey, n, r);
  }

  /** `recientes` and `destacadas` list the newest first, and no published
      article left out is newer than one returned. */
  lemma NewestOrder(rows: seq<Row>, n: nat, r: seq<Row>)
    requires r == Newest(rows, n)
    ensures forall i, j :: 0 <= i < j < |r| ==> r[i].fechaPublicacion >= r[j].fechaPublicacion
    ensures forall x, k :: x in rows && Published(x) && x !in r && 0 <= k < |r| ==>
      x.fechaPublicacion <= r[k].fechaPublicacion
  {
    TopNOrder(rows, Published, FechaKey, n, r);
  }

  /** Without a `limit`, `recientes` is the first five of `destacadas`; with the same
      integer `limit` (a negative one included, which fails both) they answer alike.
      Both hold in the model's order, where articles of the same date keep their
      table order. */
  lemma RecientesPrefixOfDestacadas(rows: seq<Row>)
    ensures Recientes(rows, None) == Ok(Newest(rows, RECIENTES_LIMIT))
    ensures Destacadas(rows, None) == Ok(Newest(rows, DESTACADAS_LIMIT))
    ensures Newest(rows, RECIENTES_LIMIT) == Newest(rows, DESTACADAS_LIMIT)[..|Newest(rows, RECIENTES_LIMIT)|]
    ensures forall p :: ParseInt(p).Some? ==> Recientes(rows, Some(p)) == Destacadas(rows, Some(p))
  {
    var s := SortDesc(Filter(rows, Published), FechaKey);
    assert Newest(rows, RECIENTES_LIMIT) == Take(s, 5);
    assert Newest(rows, DESTACADAS_LIMIT) == Take(s, 12);
  }

  /** The two queries order by a date, so the database may give same-day articles
      in any order, and a different one in each query. Whatever orders it picks,
      `recientes` (the first 5) and `destacadas` (the first 12) agree date by date:
      the dates `recientes` shows are the first dates `destacadas` shows. */
  lemma RecientesDatesPrefixOfDestacadas(rows: seq<Row>, a: seq<Row>, b: seq<Row>)
    requires SortedDesc(a, FechaKey) && multiset(a) == multiset(Filter(rows, Published))
    requires SortedDesc(b, FechaKey) && multiset(b) == multiset(Filter(rows, Published))
    ensures |Take(a, RECIENTES_LIMIT)| <= |Take(b, DESTACADAS_LIMIT)|
    ensures forall i :: 0 <= i < |Take(a, RECIENTES_LIMIT)| ==>
      Take(a, RECIENTES_LIMIT)[i].fechaPublicacion == Take(b, DESTACADAS_LIMIT)[i].fechaPublicacion
  {
    SortedPermutationKeys(a, b, FechaKey);
  }

  /** The site sections and the category tokens each one gathers. */
  datatype Section = Politica | Cultura | Economia | Mundo | TiposNotas

  function SectionCategories(s: Section): (cats: seq<string>)
    ensures |cats| > 0
  {
    match s
    case Politica => ["nacion", "legislativos", "policiales", "elecciones", "gobierno", "provincias", "capital"]
    case Cultura => ["cine", "literatura", "salud", "tecnologia", "eventos", "educacion", "efemerides", "deporte"]
    case Economia => ["finanzas", "comercio_internacional", "politica_economica", "dolar", "pobreza_e_inflacion"]
    case Mundo => ["estados_unidos", "asia", "medio_oriente", "internacional", "latinoamerica"]
    case TiposNotas => ["de_analisis", "de_opinion", "informativas", "entrevistas"]
  }

  /** The OR of `categorias__contains=<token>` over the tokens. */
  predicate ContainsAny(categorias: string, tokens: seq<string>) {
    exists k :: 0 <= k < |tokens| && Contains(categorias, tokens[k])
  }

  predicate InSection(x: Row, s: Section) {
    Published(x) && ContainsAny(x.categorias, SectionCategories(s))
  }

  function SectionFilter(s: Section): Row -> bool {
    (x: Row) => InSection(x, s)
  }

  lemma SectionFilterHolds(s: Section, x: Row)
    requires InSection(x, s)
    ensures SectionFilter(s)(x)
  {
  }

  /** `_get_section_news` */
  function SectionNews(rows: seq<Row>, s: Section, limitParam: Option<string>): (r: Result<seq<Row>, SliceError>)
    ensures r.Err? <==> LimitParamAsWritten(limitParam, SECTION_LIMIT) < 0
    ensures r.Ok? ==> |r.value| == Min(LimitParamAsWritten(limitParam, SECTION_LIMIT), |Filter(rows, SectionFilter(s))|)
  {
    Ranked(rows, SectionFilter(s), FechaKey, limitParam, SECTION_LIMIT)
  }

  /** A section returns only published articles of the table whose category text
      contains one of the section's tokens, at most `limit` of them, and all of
      them when fewer qualify. */
  lemma SectionNewsSelection(rows: seq<Row>, s: Section, limitParam: Option<string>, r: seq<Row>)
    requires SectionNews(rows, s, limitParam) == Ok(r)
    ensures forall k :: 0 <= k < |r| ==> r[k] in rows && InSection(r[k], s)
    ensures |r| <= LimitParamAsWritten(limitParam, SECTION_LIMIT)
    ensures |r| == LimitParamAsWritten(limitParam, SECTION_LIMIT) || forall x :: x in rows && InSection(x, s) ==> x in r
  {
    var n := LimitParamAsWritten(limitParam, SECTION_LIMIT) as nat;
    TopNSelection(rows, SectionFilter(s), FechaKey, n, r);
  }

  /** A section lists the newest first, and no qualifying article left out is
      newer than one returned. */
  lemma SectionNewsOrder(rows: seq<Row>, s: Section, limitParam: Option<string>, r: seq<Row>)
    requires SectionNews(rows, s, limitParam) == Ok(r)
    ensures forall i, j :: 0 <= i < j < |r| ==> r[i].fechaPublicacion >= r[j].fechaPublicacion
    ensures forall x, k :: x in rows && InSection(x, s) && x !in r && 0 <= k < |r| ==>
      x.fechaPublicacion <= r[k].fechaPublicacion
  {
    NewestFirst(rows, SectionFilter(s), limitParam, SECTION_LIMIT, r);
    forall x, k | x in rows && InSection(x, s) && x !in r && 0 <= k < |r|
      ensures x.fechaPublicacion <= r[k].fechaPublicacion
    {
      SectionFilterHolds(s, x);
    }
  }

  /** A query ranked by publication date lists the newest first, and no admitted
      row left out is newer than one returned. */
  lemma NewestFirst(rows: seq<Row>, keep: Row -> bool, limitParam: Option<string>, default: nat, r: seq<Row>)
    requires Ranked(rows, keep, FechaKey, limitParam, default) == Ok(r)
    ensures forall i, j :: 0 <= i < j < |r| ==> r[i].fechaPublicacion >= r[j].fechaPublicacion
    ensures forall x, k :: x in rows && keep(x) && x !in r && 0 <= k < |r| ==>
      x.fechaPublicacion <= r[k].fechaPublicacion
  {
    RankedOrder(rows, keep, FechaKey, limitParam, default, r);
    forall i, j | 0 <= i < j < |r| ensures r[i].fechaPublicacion >= r[j].fechaPublicacion {
      assert FechaKey(r[i]) >= FechaKey(r[j]);
    }
    forall x, k | x in rows && keep(x) && x !in r && 0 <= k < |r|
      ensures x.fechaPublicacion <= r[k].fechaPublicacion
    {
      assert FechaKey(x) <= FechaKey(r[k]);
    }
  }

  /** An article stored under one of the section's tokens is in the section. */
  lemma TaggedArticleInSection(x: Row, s: Section, k: nat)
    requires Published(x) && k < |SectionCategories(s)|
    requires x.categorias == SectionCategories(s)[k]
    ensures InSection(x, s)
  {
    ContainsAt(x.categorias, x.categorias);
    assert OccursAt(x.categorias, x.categorias, 0);
  }

  /** What `por_categoria` answers: 400 without a `categoria`, a server error when
      the filter or the slice raises, else the rows. */
  datatype Answer = BadRequest | ServerError | Rows(rows: seq<Row>)

  /** The filter of `por_categoria`: the requested state, and, when the parameter
      names several non-empty tokens, a case-insensitive match of any of them;
      otherwise a case-insensitive match of the raw parameter. */
  predicate PorCategoriaMatch(x: Row, categoria: string, estado: int)
    ensures PorCategoriaMatch(x, categoria, estado) ==> x.estado.Some? && x.estado.value as int == estado
    ensures categoria == "" ==> (PorCategoriaMatch(x, categoria, estado) <==> x.estado.Some? && x.estado.value as int == estado)
  {
    var tokens := StrippedTokens(Split(categoria, ','));
    && x.estado.Some? && x.estado.value as int == estado
    && if |tokens| > 1 then exists k :: 0 <= k < |tokens| && IContains(x.categorias, tokens[k])
       else IContains(x.categorias, categoria)
  }

  /** The `estado` parameter of `por_categoria` as the ORM reads it for the
      `filter(estado=...)` lookup: 3 when absent, otherwise the integer `int()` reads
      from the text, `None` when it reads none (the lookup then raises). */
  function EstadoParam(estado: Option<string>): (e: Option<int>)
    ensures estado.None? ==> e == Some(ESTADO_PUBLICADO as int)
    ensures estado.Some? ==> e == ParseInt(estado.value)
  {
    if estado.Some? then ParseInt(estado.value) else Some(ESTADO_PUBLICADO as int)
  }

  /** `por_categoria`: reads every article (not the base queryset), in the given
      state, newest first, at most `limit` (60 by default). */
  function PorCategoria(rows: seq<Row>, categoria: Option<string>, estado: Option<string>, limitParam: Option<string>)
    : (a: Answer)
    ensures a.BadRequest? <==> categoria.None? || categoria.value == ""
    ensures a.ServerError? <==>
      categoria.Some? && categoria.value != "" &&
      (EstadoParam(estado).None? || LimitParamAsWritten(limitParam, POR_CATEGORIA_LIMIT) < 0)
  {
    if categoria.None? || categoria.value == "" then BadRequest
    else
      match EstadoParam(estado)
      case None => ServerError
      case Some(e) =>
        match Ranked(rows, (x: Row) => PorCategoriaMatch(x, categoria.value, e), FechaKey, limitParam, POR_CATEGORIA_LIMIT)
        case Err(_) => ServerError
        case Ok(r) => Rows(r)
  }

  /** `por_categoria` answers 400 exactly when `categoria` is missing or empty; a
      server error exactly when, past that, `estado` is not an integer or `limit` is
      a negative one; otherwise it returns only matching articles of the table,
      newest first, at most `limit` of them, fewer only when fewer match. */
  lemma PorCategoriaRanking(rows: seq<Row>, categoria: Option<string>, estado: Option<string>,
                            limitParam: Option<string>, a: Answer)
    requires a == PorCategoria(rows, categoria, estado, limitParam)
    ensures a.BadRequest? <==> categoria.None? || categoria.value == ""
    ensures a.ServerError? <==>
      categoria.Some? && categoria.value != "" &&
      (EstadoParam(estado).None? || LimitParamAsWritten(limitParam, POR_CATEGORIA_LIMIT) < 0)
    ensures a.Rows? ==> EstadoParam(estado).Some? && forall k :: 0 <= k < |a.rows| ==>
      a.rows[k] in rows && PorCategoriaMatch(a.rows[k], categoria.value, EstadoParam(estado).value)
    ensures a.Rows? ==> forall i, j :: 0 <= i < j < |a.rows| ==> a.rows[i].fechaPublicacion >= a.rows[j].fechaPublicacion
    ensures a.Rows? ==> |a.rows| <= LimitParamAsWritten(limitParam, POR_CATEGORIA_LIMIT)
    ensures a.Rows? ==>
      |a.rows| == LimitParamAsWritten(limitParam, POR_CATEGORIA_LIMIT) ||
      forall x :: x in rows && PorCategoriaMatch(x, categoria.value, EstadoParam(estado).value) ==> x in a.rows
  {
    if a.Rows? {
      var e := EstadoParam(estado).value;
      var keep := (x: Row) => PorCategoriaMatch(x, categoria.value, e);
      var n := LimitParamAsWritten(limitParam, POR_CATEGORIA_LIMIT) as nat;
      TopNSelection(rows, keep, FechaKey, n, a.rows);
      TopNOrder(rows, keep, FechaKey, n, a.rows);
    }
  }

  /** A parameter without commas is matched as one case-insensitive substring. */
  lemma PorCategoriaSingleToken(x: Row, categoria: string, e: nat)
    requires x.estado == Some(e) && ',' !in categoria
    ensures PorCategoriaMatch(x, categoria, e) <==> IContains(x.categorias, categoria)
  {
    SplitWithoutSep(categoria, ',');
  }

  // ===========================================================================
  // Visit statistics
  // ===========================================================================

  function Sum(xs: seq<nat>): (s: nat)
    decreases |xs|
  {
    if xs == [] then 0 else xs[0] + Sum(xs[1..])
  }

  function Max(xs: seq<nat>): (m: nat)
    requires xs != []
    ensures m in xs
    ensures forall k :: 0 <= k < |xs| ==> xs[k] <= m
    decreases |xs|
  {
    if |xs| == 1 then xs[0]
    else
      var rest := Max(xs[1..]);
      if xs[0] >= rest then xs[0] else rest
  }

  /** The maximum never exceeds the sum, and the sum never exceeds count times the
      maximum. */
  lemma {:induction false} MaxAndSum(xs: seq<nat>)
    requires xs != []
    ensures Max(xs) <= Sum(xs) <= |xs| * Max(xs)
    decreases |xs|
  {
    if |xs| > 1 {
      var m := Max(xs);
      var tail := xs[1..];
      MaxAndSum(tail);
      assert Max(tail) <= m;
      MulMonotone(|tail|, Max(tail), m);
      MulSucc(|tail|, m);
      assert Sum(xs) == xs[0] + Sum(tail);
    }
  }

  lemma MulSucc(a: nat, m: nat)
    ensures a * m + m == (a + 1) * m
  {
  }

  lemma MulMonotone(a: nat, b: nat, c: nat)
    requires b <= c
    ensures a * b <= a * c
  {
  }

  function VisitasColumn(rows: seq<Row>): (col: seq<nat>)
    ensures |col| == |rows|
    ensures forall k :: 0 <= k < |rows| ==> col[k] == rows[k].contadorVisitas
  {
    seq(|rows|, k requires 0 <= k < |rows| => rows[k].contadorVisitas)
  }

  function VisitasTotalColumn(rows: seq<Row>): (col: seq<nat>)
    ensures |col| == |rows|
    ensures forall k :: 0 <= k < |rows| ==> col[k] == rows[k].contadorVisitasTotal
  {
    seq(|rows|, k requires 0 <= k < |rows| => rows[k].contadorVisitasTotal)
  }

  /** The integer aggregates of `estadisticas_visitas`; SQL yields NULL (`None`)
      for a sum or maximum over no rows. */
  datatype Estadisticas = Estadisticas(
    totalVisitasSemanales: Option<nat>,
    totalVisitasHistoricas: Option<nat>,
    maxVisitasSemanales: Option<nat>,
    maxVisitasHistoricas: Option<nat>,
    totalNoticias: nat)

  /** `estadisticas_visitas` over the published articles: each `Sum` and `Max` is
      taken over the column of the published rows, and is NULL when there are none. */
  function EstadisticasVisitas(rows: seq<Row>): (e: Estadisticas)
    ensures e.totalNoticias == |Filter(rows, Published)|
    ensures var p := Filter(rows, Published);
      && e.totalVisitasSemanales == (if p == [] then None else Some(Sum(VisitasColumn(p))))
      && e.totalVisitasHistoricas == (if p == [] then None else Some(Sum(VisitasTotalColumn(p))))
    ensures var p := Filter(rows, Published);
      && e.maxVisitasSemanales == (if p == [] then None else Some(Max(VisitasColumn(p))))
      && e.maxVisitasHistoricas == (if p == [] then None else Some(Max(VisitasTotalColumn(p))))
    ensures e.totalNoticias == 0 <==> e.totalVisitasSemanales.None?
    ensures e.totalNoticias == 0 <==> e.maxVisitasHistoricas.None?
    ensures e.maxVisitasSemanales.Some? ==>
      (forall x :: x in rows && Published(x) ==> x.contadorVisitas <= e.maxVisitasSemanales.value) &&
      exists x :: x in rows && Published(x) && x.contadorVisitas == e.maxVisitasSemanales.value
    ensures e.maxVisitasHistoricas.Some? ==>
      (forall x :: x in rows && Published(x) ==> x.contadorVisitasTotal <= e.maxVisitasHistoricas.value) &&
      exists x :: x in rows && Published(x) && x.contadorVisitasTotal == e.maxVisitasHistoricas.value
  {
    var p := Filter(rows, Published);
    if p == [] then Estadisticas(None, None, None, None, 0)
    else
      var v := VisitasColumn(p);
      var t := VisitasTotalColumn(p);
      VisitasMax(p);
      VisitasTotalMax(p);
      Estadisticas(Some(Sum(v)), Some(Sum(t)), Some(Max(v)), Some(Max(t)), |p|)
  }

  /** The maximum of the weekly column is some row's count and bounds every row's. */
  lemma VisitasMax(p: seq<Row>)
    requires p != []
    ensures forall x :: x in p ==> x.contadorVisitas <= Max(VisitasColumn(p))
    ensures exists x :: x in p && x.contadorVisitas == Max(VisitasColumn(p))
  {
    var v := VisitasColumn(p);
    forall x | x in p ensures x.contadorVisitas <= Max(v) {
      var k :| 0 <= k < |p| && p[k] == x;
      assert v[k] == x.contadorVisitas;
    }
    var i :| 0 <= i < |v| && v[i] == Max(v);
    assert p[i] in p;
  }

  /** The maximum of the all-time column is some row's count and bounds every row's. */
  lemma VisitasTotalMax(p: seq<Row>)
    requires p != []
    ensures forall x :: x in p ==> x.contadorVisitasTotal <= Max(VisitasTotalColumn(p))
    ensures exists x :: x in p && x.contadorVisitasTotal == Max(VisitasTotalColumn(p))
  {
    var t := VisitasTotalColumn(p);
    forall x | x in p ensures x.contadorVisitasTotal <= Max(t) {
      var k :| 0 <= k < |p| && p[k] == x;
      assert t[k] == x.contadorVisitasTotal;
    }
    var j :| 0 <= j < |t| && t[j] == Max(t);
    assert p[j] in p;
  }

  /** A row's weekly and all-time counters. */
  function Visitas(x: Row): nat { x.contadorVisitas }
  function VisitasTotal(x: Row): nat { x.contadorVisitasTotal }

  /** `key` summed over the rows of the table that `keep` admits, row by row. */
  function SumOver(rows: seq<Row>, keep: Row -> bool, key: Row -> nat): nat
    decreases |rows|
  {
    if rows == [] then 0 else (if keep(rows[0]) then key(rows[0]) else 0) + SumOver(rows[1..], keep, key)
  }

  /** Summing a column of the filtered rows is summing `key` over the rows of the
      table that the filter admits. */
  lemma {:induction false} SumOfKept(rows: seq<Row>, keep: Row -> bool, key: Row -> nat, col: seq<nat>)
    requires |col| == |Filter(rows, keep)|
    requires forall k :: 0 <= k < |col| ==> col[k] == key(Filter(rows, keep)[k])
    ensures Sum(col) == SumOver(rows, keep, key)
    decreases |rows|
  {
    if rows != [] {
      var rest := Filter(rows[1..], keep);
      if keep(rows[0]) {
        assert Filter(rows, keep) == [rows[0]] + rest;
        forall k | 0 <= k < |col[1..]| ensures col[1..][k] == key(rest[k]) {
          assert Filter(rows, keep)[k + 1] == rest[k];
        }
        SumOfKept(rows[1..], keep, key, col[1..]);
      } else {
        assert Filter(rows, keep) == rest;
        SumOfKept(rows[1..], keep, key, col);
      }
    }
  }

  /** The two totals of the statistics are the weekly and all-time counters summed
      over the published articles of the table. */
  lemma EstadisticasTotals(rows: seq<Row>)
    ensures var e := EstadisticasVisitas(rows);
      e.totalNoticias > 0 ==>
        && e.totalVisitasSemanales == Some(SumOver(rows, Published, Visitas))
        && e.totalVisitasHistoricas == Some(SumOver(rows, Published, VisitasTotal))
  {
    var p := Filter(rows, Published);
    SumOfKept(rows, Published, Visitas, VisitasColumn(p));
    SumOfKept(rows, Published, VisitasTotal, VisitasTotalColumn(p));
  }

  /** In the statistics, each maximum is at most its total, and each total at
      most the article count times the maximum. */
  lemma EstadisticasBounds(rows: seq<Row>)
    ensures var e := EstadisticasVisitas(rows);
      e.totalNoticias > 0 ==>
        && e.maxVisitasSemanales.value <= e.totalVisitasSemanales.value <= e.totalNoticias * e.maxVisitasSemanales.value
        && e.maxVisitasHistoricas.value <= e.totalVisitasHistoricas.value <= e.totalNoticias * e.maxVisitasHistoricas.value
  {
    var p := Filter(rows, Published);
    if p != [] {
      MaxAndSum(VisitasColumn(p));
      MaxAndSum(VisitasTotalColumn(p));
    }
  }

  // ===========================================================================
  // retrieve
  // ===========================================================================

  /** `retrieve`: finds the article (a non-integer key raises, an unknown one is
      404), counts a visit from the client address, and answers 200; if the
      article's `save` raises, the answer is a server error, and the visit stays
      recorded unless the save that raised was the one resetting the 24-hour
      window. Only the visit counter, the window anchor and (by `save`'s rule) the
      slug of the article found can change. */
  method Retrieve(articles: map<nat, Noticia>, lookup: string, forwardedFor: Option<string>,
                  remoteAddr: Option<string>, ledger: VisitLedger, now: Instant,
                  slugify: string -> string, taken: set<string>)
    returns (status: int)
    modifies articles.Values, ledger
    ensures GetObject(articles.Keys, lookup).BadPk? ==>
      status == HTTP_500_INTERNAL_SERVER_ERROR && ledger.visitas == old(ledger.visitas)
    ensures GetObject(articles.Keys, lookup).NotFound? ==>
      status == HTTP_404_NOT_FOUND && ledger.visitas == old(ledger.visitas)
    ensures GetObject(articles.Keys, lookup).Found? ==>
      var a := articles[GetObject(articles.Keys, lookup).id];
      var reset := now - old(a.ultimaActualizacionContador) > TWENTY_FOUR_HOURS;
      && status == (if SaveCheck(old(a.categorias)).Saved? then HTTP_200_OK else HTTP_500_INTERNAL_SERVER_ERROR)
      && ledger.visitas == (if status == HTTP_500_INTERNAL_SERVER_ERROR && reset then old(ledger.visitas)
                            else old(ledger.visitas) + [Visita(old(a.id), now, ClientIp(forwardedFor, remoteAddr))])
      && (status == HTTP_200_OK && reset ==> a.contadorVisitas == 1 && a.ultimaActualizacionContador == now)
      && (status == HTTP_200_OK && !reset ==>
            a.contadorVisitas == old(a.contadorVisitas) + 1 &&
            a.ultimaActualizacionContador == old(a.ultimaActualizacionContador))
      && (status == HTTP_500_INTERNAL_SERVER_ERROR ==>
            a.contadorVisitas == old(a.contadorVisitas) &&
            a.ultimaActualizacionContador == old(a.ultimaActualizacionContador) && a.slug == old(a.slug))
      && OnlyVisitColumnsChanged(a)
      && (status == HTTP_200_OK ==> SlugAfterSave(old(a.slug), a.slug, slugify(a.nombreNoticia), taken))
    ensures forall o :: o in articles.Values && (GetObject(articles.Keys, lookup).Found? ==> o != articles[GetObject(articles.Keys, lookup).id]) ==>
      unchanged(o)
  {
    match GetObject(articles.Keys, lookup)
    case BadPk =>
      status := HTTP_500_INTERNAL_SERVER_ERROR;
    case NotFound =>
      status := HTTP_404_NOT_FOUND;
    case Found(id) =>
      var a := articles[id];
      var ip := ClientIp(forwardedFor, remoteAddr);
      var outcome := a.IncrementarVisitas(ledger, ip, now, slugify, taken);
      status := if outcome.Saved? then HTTP_200_OK else HTTP_500_INTERNAL_SERVER_ERROR;
  }
}
