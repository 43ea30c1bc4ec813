# A verified model of the news backend of "Diario El Gobierno"

This project models the core of a Django news backend in Dafny and proves
properties of that model. The backend stores articles (`Noticia`), the visits they
receive, workers (`Trabajador`) and their roles, comments, reader reactions and
short-lived staff messages (`MensajeGlobal`). The model covers:

- the article's own rules in `diarioback/models.py`:
  - the visit counter with its 24-hour window and the visit ledger;
  - the slug loop of `save`;
  - the flat category list and both category validators;
  - the image list, the default worker photo, the comment guard and the reaction counts;
- the request rules of `diarioback/views.py`:
  - the `limit` parameter and the `"<id>-<slug>"` lookup;
  - the client address and the visit counted by `retrieve`;
  - the ranking and section queries (filter, order, take) and the visit statistics;
  - the message sweep, replies and deletions;
  - the reaction upsert;
- the serializer rules of `diarioback/serializers.py`:
  - category validation and the list/text conversion;
  - the create and partial-update merges;
  - the profile-photo path rules and password-reset validation;
- the admin permission checks and worker save hook of `diarioback/admin.py`.

Modules:

| file | module | contents |
|---|---|---|
| `common.dfy` | `Common` | `Option`, `Result`, instants (microseconds), HTTP codes |
| `text.dfy` | `Text` | the Python `str` operations used (`strip`, `split`, `join`, `int()`, `str()`, `isdigit`, substring tests) |
| `models.dfy` | `Models` | categories, validators, slugs, visits, `Noticia`, workers, comments, reactions |
| `ranking.dfy` | `Ranking` | `filter`, `order_by('-key')` (an insertion sort), slicing |
| `noticia_views.dfy` | `NoticiaViews` | `NoticiaViewSet` |
| `mensaje_views.dfy` | `MensajeViews` | `MensajeGlobalViewSet` |
| `reaccion_views.dfy` | `ReaccionViews` | `reacciones_noticia` |
| `serializers.dfy` | `Serializers` | `NoticiaSerializer`, `UserProfileSerializer`, `ResetPasswordSerializer` |
| `admin.dfy` | `Admin` | the `has_*_permission` hooks, `TrabajadorForm.save`, `save_model` |

State the source changes step by step is modelled imperatively. The classes are:

- `Models.Noticia`, with `Save` and `IncrementarVisitas`;
- `Models.VisitLedger`, `Models.Trabajador` and `Models.ComentarioTable`;
- `MensajeViews.MessageBoard` and `ReaccionViews.ReactionStore`;
- `Serializers.UserProfile`.

Loops become methods with invariants: the `FLAT_CATEGORIAS` builder, the slug loop and the image loops. The queries, validators and permission checks are functions, and lemmas relate them.

The model does not capture clocks, the network, the file system or other code that is not shown. These enter as parameters:

- `now`;
- `slugify` and the set of slugs already taken;
- what the image host answered and whether a local file exists;
- `MensajeGlobal.esta_expirado`;
- whether a reset token is valid;
- `MEDIA_URL`.

## Model

| member | source | states |
|---|---|---|
| `Models.ValidatePositive` | diarioback/models.py:11-13 | a value is accepted exactly when it is strictly positive |
| `Models.SubcategoryKeys` | diarioback/models.py:212-214 | a group contributes its subcategory keys, in order, one per subcategory |
| `Models.FlattenCategorias` | diarioback/models.py:211-216 | the `extend`/`append` loop yields exactly the row-by-row flattening of the table |
| `Models.Flatten` | diarioback/models.py:211-216 | every key any row of the table contributes is in the flat list |
| `Models.FlattenMembership` | diarioback/models.py:211-216 | a key is in the flat list exactly when some row contributes it |
| `Models.FlatCategoriasValue` | diarioback/models.py:178-216 | `FLAT_CATEGORIAS` is `Portada` followed by the keys of the Politica, Cultura, Economia and Mundo groups, in table order |
| `Models.SubcategoryKeysStartLower` | diarioback/models.py:178-209 | every subcategory key starts with a lower-case letter |
| `Models.FlatKeyOrigin` | diarioback/models.py:178-216 | every flat key is `Portada` or a subcategory key of one of the four groups |
| `Models.FlatKeysStartLower` | diarioback/models.py:178-216 | apart from `Portada`, every flat key starts lower-case |
| `Models.GroupLabelsAreNotCategories` | diarioback/models.py:178-216 | the group labels `Politica`, `Cultura`, `Economia`, `Mundo` are not in `FLAT_CATEGORIAS` |
| `Models.InvalidTokens` | diarioback/models.py:224 | every reported token is a token of the input outside the allowed list, every such token is reported, and none is reported exactly when every token is allowed |
| `Models.StrippedTokens` | diarioback/models.py:222-223 | never more tokens than pieces, and none of them empty |
| `Models.StripKeepsCommaFree` | diarioback/models.py:222-223 | a stripped piece of a comma split holds no comma |
| `Models.ValidateCategoriasField` | diarioback/models.py:218-227 | empty input gives `''`; otherwise it refuses exactly when some stripped, non-empty comma-separated token is outside `FLAT_CATEGORIAS`, naming exactly those tokens, and accepts with the comma-join of the stripped tokens, each a flat key |
| `Models.CommaFreeTokens` | diarioback/models.py:218-227 | the tokens the field validator keeps are comma-free, stripped and non-empty |
| `Models.StrippedTokensFixed` | diarioback/models.py:222-223 | tokens that are already stripped and non-empty pass through unchanged |
| `Models.ValidateCategoriasFieldIdempotent` | diarioback/models.py:218-227 | validating the field validator's output again gives the same output |
| `Models.ValidateCategoriasStatic` | diarioback/models.py:385-394 | the staticmethod as written: empty gives `[]`; any comma-split token outside `FLAT_CATEGORIAS` is an error whose list is exactly the invalid tokens, in input order; otherwise the input is returned unchanged |
| `Models.ValidateCategoriasOnSave` | diarioback/models.py:385-394 | the corrected save-time check: the same rules, with the legacy token list also allowed; an error lists exactly the tokens outside both lists, in input order |
| `Models.OnSaveExtendsStatic` | diarioback/models.py:385-394 | whatever the staticmethod accepts, the corrected check accepts with the same value |
| `Models.GetCategorias` | diarioback/models.py:329-330 | empty text gives `[]`; otherwise comma-free pieces whose join is the stored text |
| `Models.SlugCandidatesDistinct` | diarioback/models.py:280 | different counters give different `base-k` candidates, none equal to the base |
| `Models.AttemptNotProbed` | diarioback/models.py:275-281 | no probe of the slug loop repeats an earlier one |
| `Models.GenerateSlug` | diarioback/models.py:275-281 | the slug is the base if free, else `base-k` for the least `k >= 1` not taken; it is never taken |
| `Models.CountVisitsSince` | diarioback/models.py:377-380 | the windowed count never exceeds the number of recorded visits |
| `Models.VisitasUltimas24h` | diarioback/models.py:377-380 | the count never exceeds the recorded visits, and is 0 exactly when no visit of the article is dated within the last 24 hours |
| `Models.VisitCountsOnRecord` | diarioback/models.py:367-380 | recording a visit adds one to that article's window count and leaves other articles' counts alone |
| `Models.WindowCountBounded` | diarioback/models.py:377-380 | a later window start never counts more visits |
| `Models.VisitLedger.Record` | diarioback/models.py:368-371 | the ledger grows by exactly the one visit |
| `Models.SaveCheck` | diarioback/models.py:266-270 | `save` refuses exactly when `categorias` is non-empty and the staticmethod validator refuses it, naming the same tokens |
| `Models.NonEmpty` | diarioback/models.py:341-350 | never longer than the input; every URL kept is non-empty and taken from the input |
| `Models.NonEmptyKeepsSetUrls` | diarioback/models.py:341-350 | every set URL of the input is in the result |
| `Models.Noticia.constructor` | diarioback/models.py:236-264 | a new row has counter 0, anchor `now`, no slug, no categories, no images, no editors, and `subtitulo`/`contenido` set to `default content` |
| `Models.Noticia.Save` | diarioback/models.py:266-281 | a refused category check is the outcome and leaves the slug alone; otherwise a set slug stays, and an empty one becomes `slugify(title)` when that is free, else `slugify(title)-k` with every smaller candidate taken; with `force_insert` the second write is a duplicate insert and fails |
| `Models.Noticia.IncrementarVisitas` | diarioback/models.py:360-375 | the outcome is the category check's; when saved, after more than 24 hours since the anchor the counter ends at 1 and the anchor becomes `now`, otherwise the counter grows by 1 and the anchor stays; a refused save records at most one visit and stores no counter change; only the counter, the anchor and the slug can change, the slug by `save`'s rule (kept when set, else the free `slugify(title)` or least free `slugify(title)-k`) |
| `Models.Noticia.GetImageUrls` | diarioback/models.py:341-350 | the header image then `imagen_1` ... `imagen_6`, the empty ones omitted, at most 7 |
| `Models.GetFotoPerfil` | diarioback/models.py:116-117 | the local file's URL, else the photo URL, else the default picture; never empty |
| `Models.Trabajador.Save` | diarioback/models.py:65-108 | an existing local file is uploaded and its URL becomes the photo, a given URL is kept, and otherwise the default picture is used |
| `Models.ComentarioGuard` | diarioback/models.py:405-413 | a comment with an author passes only if the author is a worker whose role may comment; one without an author always passes |
| `Models.ComentarioTable.Save` | diarioback/models.py:405-414 | the comment is stored exactly when the guard passes, and nothing is stored otherwise |
| `Models.GetConteoReacciones` | diarioback/models.py:352-358 | each of the four counts is positive exactly when some user reacted to the article with that kind |
| `Models.ConteoTotal` | diarioback/models.py:352-358 | the four counts add up to at most the article's reactions, and to all of them when every stored kind is one of the four |
| `Models.KindsDisjoint` | diarioback/models.py:497 | one reaction per (article, user) means no user is counted under two kinds |
| `Ranking.Filter` | diarioback/views.py:321-324 | every row kept is an admitted row of the input, and every admitted row is kept |
| `Ranking.SortDesc` | diarioback/views.py:325 | `order_by('-key')`: a permutation of the rows, sorted by non-increasing key |
| `Ranking.Take` | diarioback/views.py:325 | `[:n]`: the first `min(n, len)` rows |
| `Ranking.Slice` | diarioback/views.py:325 | a negative bound raises; otherwise `Take` |
| `Ranking.TopNSelection` | diarioback/views.py:321-325 | a filter-order-take result holds only admitted rows of the table, exactly `min(n, admitted)` of them, so all admitted rows when fewer than `n` |
| `Ranking.TopNOrder` | diarioback/views.py:321-325 | the result is ordered by non-increasing key and no admitted row left out ranks above the last one returned |
| `Ranking.SortedPermutationKeys` | diarioback/views.py:325 | any two orderings of the same rows by non-increasing key carry the same keys position by position, whatever order tied rows take |
| `Ranking.HeadKeys` | diarioback/views.py:325 | two orderings of the same rows by non-increasing key start with the same (largest) key |
| `Ranking.WithoutKeepsOrder` | diarioback/views.py:325 | removing one row from a sorted ordering keeps it sorted and removes exactly that row from the multiset |
| `Ranking.KeysPastRemoved` | diarioback/views.py:325 | key agreement after taking out two rows of the largest key extends to the whole orderings |
| `NoticiaViews.LimitParamAsWritten` | diarioback/views.py:315-319 | `int(limit)` with `ValueError` caught: the integer the text denotes, the default when absent or not an integer |
| `NoticiaViews.NegativeLimitRaises` | diarioback/views.py:315-326 | `limit=-1` (any `-` then a positive numeral) reads as that negative number and makes the slice raise |
| `NoticiaViews.LimitParam` | diarioback/views.py:315-319 | the corrected reading: a non-negative integer is used, anything else gives the default |
| `NoticiaViews.LimitNeverRaises` | diarioback/views.py:321-326 | with the corrected reading the slice never raises |
| `NoticiaViews.LimitOfNumeral` | diarioback/views.py:315-319 | `limit=<n>` gives `n` and no `limit` gives the default |
| `NoticiaViews.Ranked` | diarioback/views.py:315-326 | filter, order and slice by `limit` as read: raises exactly when that limit is negative, otherwise the top `limit` admitted rows, `min(limit, admitted)` of them |
| `NoticiaViews.RankedOrder` | diarioback/views.py:321-326 | a ranked result is ordered by the key, and no admitted row left out ranks above one returned |
| `NoticiaViews.MostVisitedFirst` | diarioback/views.py:321-326 | a query ranked by `contador_visitas` is ordered most visited first, and no admitted row left out has more visits |
| `NoticiaViews.NewestFirst` | diarioback/views.py:509-516 | a query ranked by `fecha_publicacion` is ordered newest first, and no admitted row left out is newer |
| `NoticiaViews.ListLimit` | diarioback/views.py:199-203 | `list` uses a limit exactly when the text is all digits, with the value the digits denote |
| `NoticiaViews.ListLimitAgreesWithInt` | diarioback/views.py:199-201 | what `isdigit` admits, `int()` reads as the same number |
| `NoticiaViews.ListLimitOfNumeral` | diarioback/views.py:199-201 | `limit=<n>` gives `list` the limit `n` |
| `NoticiaViews.LookupPk` | diarioback/views.py:630-634 | the key is what precedes the first `-`, or the whole lookup, and holds no `-` |
| `NoticiaViews.GetObject` | diarioback/views.py:625-642 | a non-integer key raises, an unknown id is not found, otherwise the article with that id |
| `NoticiaViews.SlugDoesNotMatter` | diarioback/views.py:630-639 | `"<id>-<slug>"` and `"<id>"` find the same article, whatever the slug |
| `NoticiaViews.ClientIp` | diarioback/views.py:218-222 | a non-empty `X-Forwarded-For` gives an address without commas, otherwise `REMOTE_ADDR` is used |
| `NoticiaViews.FirstForwardedAddress` | diarioback/views.py:218-220 | the first proxy hop is recorded whatever follows it |
| `NoticiaViews.MasVistas` | diarioback/views.py:310-326 | raises exactly when `limit` as read is negative; otherwise returns `min(limit, qualifying)` articles, default limit 10 |
| `NoticiaViews.MasVistasSelection` | diarioback/views.py:315-326 | when `limit` as read does not make the slice raise: only published articles whose counter was reset within 7 days, at most `limit`, and all of them when fewer |
| `NoticiaViews.MasVistasOrder` | diarioback/views.py:321-326 | ordered by non-increasing `contador_visitas`, and no qualifying article left out has more |
| `NoticiaViews.MasLeidas` | diarioback/views.py:332-345 | raises exactly when `limit` as read is negative; otherwise returns `min(limit, published)` articles, default limit 10 |
| `NoticiaViews.MasLeidasSelection` | diarioback/views.py:337-345 | when the slice does not raise: only published articles, at most `limit`, and all of them when fewer |
| `NoticiaViews.MasLeidasOrder` | diarioback/views.py:343-345 | ordered by non-increasing `contador_visitas_total`, and no published article left out has more |
| `NoticiaViews.Recientes` | diarioback/views.py:381-396 | raises exactly when `limit` as read is negative; otherwise returns `min(limit, published)` articles, default limit 5 |
| `NoticiaViews.Destacadas` | diarioback/views.py:400-416 | raises exactly when `limit` as read is negative; otherwise returns `min(limit, published)` articles, default limit 12 |
| `NoticiaViews.Newest` | diarioback/views.py:392-394 | the newest `n` published articles number `min(n, published)` |
| `NoticiaViews.NewestSelection` | diarioback/views.py:392-394 | the newest `n` published articles: only published ones, at most `n`, and all of them when fewer |
| `NoticiaViews.NewestOrder` | diarioback/views.py:392-394 | the newest `n`: newest first, and no published article left out is newer |
| `NoticiaViews.RecientesPrefixOfDestacadas` | diarioback/views.py:381-416 | without `limit`, `recientes` is the newest 5 and `destacadas` the newest 12, the first a prefix of the second; with the same integer `limit` they answer the same, raising alike (in the model's tie order, same-day articles in table order) |
| `NoticiaViews.RecientesDatesPrefixOfDestacadas` | diarioback/views.py:381-416 | whatever order the database gives same-day articles in each query, `recientes` returns no more rows than `destacadas` and its publication dates are the first dates of `destacadas`, position by position |
| `NoticiaViews.SectionNews` | diarioback/views.py:499-516 | raises exactly when `limit` as read is negative; otherwise returns `min(limit, qualifying)` articles, default limit 7 |
| `NoticiaViews.SectionNewsSelection` | diarioback/views.py:499-516 | when the slice does not raise: only published articles whose category text contains one of the section's tokens, at most `limit`, and all of them when fewer |
| `NoticiaViews.SectionNewsOrder` | diarioback/views.py:509-516 | newest first, and no qualifying article left out is newer |
| `NoticiaViews.TaggedArticleInSection` | diarioback/views.py:509-512 | a published article whose category text is one of the section's tokens is in the section |
| `NoticiaViews.EstadoParam` | diarioback/views.py:535-549 | no `estado` means published; otherwise `int(estado)`, `None` when that raises |
| `NoticiaViews.PorCategoria` | diarioback/views.py:522-566 | 400 exactly when `categoria` is missing or empty; past that a server error exactly when `estado` is not an integer or `limit` as read is negative |
| `NoticiaViews.PorCategoriaMatch` | diarioback/views.py:545-559 | a match is always in the requested state, and an empty category text matches every article in that state |
| `NoticiaViews.PorCategoriaRanking` | diarioback/views.py:522-566 | 400 exactly when `categoria` is missing or empty; past that a server error exactly when `estado` is not an integer or `limit` as read is negative; otherwise the matching articles of that state, newest first, at most `limit`, and all of them when fewer |
| `NoticiaViews.PorCategoriaSingleToken` | diarioback/views.py:553-558 | a parameter without commas is matched as one case-insensitive substring |
| `NoticiaViews.MaxAndSum` | diarioback/views.py:361-374 | the maximum never exceeds the sum, and the sum never exceeds count times maximum |
| `NoticiaViews.EstadisticasVisitas` | diarioback/views.py:361-374 | the count is that of the published articles; the sums and maxima are `Sum` and `Max` of the published articles' two counter columns, `None` exactly when there are none; each maximum bounds every published article's counter and is reached by one |
| `NoticiaViews.SumOfKept` | diarioback/views.py:368-370 | summing a column of the filtered rows is summing the key over the admitted rows |
| `NoticiaViews.EstadisticasTotals` | diarioback/views.py:368-370 | with published articles, the two totals are the sums of `contador_visitas` and `contador_visitas_total` over exactly the published articles |
| `NoticiaViews.VisitasMax` | diarioback/views.py:367-369 | the weekly maximum is some article's count and bounds every article's |
| `NoticiaViews.VisitasTotalMax` | diarioback/views.py:368-370 | the all-time maximum is some article's count and bounds every article's |
| `NoticiaViews.EstadisticasBounds` | diarioback/views.py:361-374 | each maximum is at most its total, and each total at most count times maximum |
| `NoticiaViews.Retrieve` | diarioback/views.py:214-227 | a bad key raises and an unknown one is 404, with no visit; for the article found the status is 200 when its save succeeds and 500 otherwise; the visit is recorded unless the first save of a window reset fails; on 200 the counter restarts at 1 with anchor `now` after a reset, or grows by 1; on 500 counter, anchor and slug are unchanged; on 200 the slug follows `save`'s rule; no other column of the article changes, and other articles are untouched |
| `MensajeViews.Deactivate` | diarioback/views.py:1128-1131 | the same messages, each active afterwards exactly when it was active and not yet expired, with nothing but `activo` changed |
| `MensajeViews.StaleIds` | diarioback/views.py:1134-1138 | only stored, inactive messages are deleted, and none whose expiry is after the limit |
| `MensajeViews.Sweep` | diarioback/views.py:1127-1138 | no row is added, the deactivated count is at most the number of messages, and the reported deletions equal the messages and replies that disappear |
| `MensajeViews.SweepGuarantees` | diarioback/views.py:1127-1141 | after a sweep no message is active past its expiry; inactive messages expired a day or more are gone, with their replies; unexpired messages keep their state |
| `MensajeViews.SweepIdempotent` | diarioback/views.py:1285-1307 | a second sweep at the same instant changes nothing and counts 0 and 0 |
| `MensajeViews.SweptLeavesNothingToDo` | diarioback/views.py:1127-1138 | after a sweep nothing is due for deactivation or deletion |
| `MensajeViews.SweepWithNothingToDo` | diarioback/views.py:1127-1138 | a sweep with nothing due changes nothing |
| `MensajeViews.ActiveAfterSweepUnexpired` | diarioback/views.py:1127-1141 | a message returned after a sweep has not expired |
| `MensajeViews.MessageBoard.RunSweep` | diarioback/views.py:1127-1138 | the tables become the sweep's result and the counts are its counts |
| `MensajeViews.MessageBoard.GetQueryset` | diarioback/views.py:1122-1141 | sweeps, then returns exactly the active messages, none of them expired |
| `MensajeViews.StrippedField` | diarioback/views.py:1211 | an absent field reads as `''`, text is stripped, and any other JSON value makes `.strip()` raise |
| `MensajeViews.IdLookup` | diarioback/views.py:1241-1244 | the id lookup converts a number as is, a boolean to 0 or 1, and text with `int()`, which may fail |
| `MensajeViews.ZeroTextIsLookedUp` | diarioback/views.py:1231-1244 | `"0"` is truthy and is looked up as id 0, which no stored reply has, so it gives 404 rather than 400 |
| `MensajeViews.MessageBoard.Destroy` | diarioback/views.py:1167-1188 | 404 for a message not active; 403 for a non-worker or a worker who did not write it; otherwise the message and its replies are deleted (204) |
| `MensajeViews.MessageBoard.Responder` | diarioback/views.py:1190-1226 | in order: 404 when not active, 400 when expired, 403 for a non-worker, 500 when `respuesta` is not a string, 400 for a blank reply; otherwise exactly one reply holding the stripped text (201) |
| `MensajeViews.MessageBoard.EliminarRespuesta` | diarioback/views.py:1228-1268 | 400 for a missing or falsy reply id, 403 for a non-worker, 500 when the reply id or the message id from the URL is not an integer, 404 when that reply of that message does not exist, 403 for someone else's; otherwise only that reply is deleted (204) |
| `MensajeViews.MessageBoard.LimpiarExpirados` | diarioback/views.py:1284-1313 | a non-worker gets 403 and nothing changes; otherwise the sweep runs and its counts are reported |
| `MensajeViews.CleanTwice` | diarioback/views.py:1284-1313 | cleaning twice at the same instant: the second run reports 0 deactivated and 0 deleted |
| `ReaccionViews.Upsert` | diarioback/views.py:961-965 | the caller's key is added or kept and maps to the chosen kind; every other reaction is unchanged |
| `ReaccionViews.Withdraw` | diarioback/views.py:974-978 | exactly the caller's key is gone; every other reaction is unchanged |
| `ReaccionViews.UpsertReactions` | diarioback/views.py:961-965 | an upsert adds a reaction exactly when the user had none, so the article's count grows by one or stays |
| `ReaccionViews.UpsertAddsKey` | diarioback/views.py:961-965 | after an upsert the article's reactions are the old ones plus the caller's; other articles are untouched |
| `ReaccionViews.UpsertKinds` | diarioback/views.py:961-965 | the chosen kind gains the user and every other kind loses them |
| `ReaccionViews.WithdrawReactions` | diarioback/views.py:974-978 | the article's count drops by one exactly when the caller had a reaction; each kind loses only the caller; other articles are untouched |
| `ReaccionViews.ReactionStore.Reacciones` | diarioback/views.py:935-978 | 404 for an unknown article; GET gives the counts; 401 when anonymous; POST without a kind 400, else upsert with 201 when new and 200 when replaced; DELETE withdraws with 204 |
| `Serializers.ValidateCategorias` | diarioback/serializers.py:309-323 | empty gives `''`; a token outside both `FLAT_CATEGORIAS` and the legacy list is an error whose list is exactly the tokens outside both lists, in input order; otherwise the value unchanged |
| `Serializers.CategoriasText` | diarioback/serializers.py:266-284 | a list is comma-joined, then the `CharField` strips the text |
| `Serializers.DeserializeCategorias` | diarioback/serializers.py:267-284 | nothing to validate exactly when the entry is absent; null validates as `''`; accepted text is the field's text unchanged; a refusal names at least one token of non-empty text |
| `Serializers.RepresentCategorias` | diarioback/serializers.py:325-328 | empty text is the empty list; otherwise comma-free pieces that join back to the stored text |
| `Serializers.CreateCategorias` | diarioback/serializers.py:293-298 | an absent or empty value is stored as `''`, anything else as given |
| `Serializers.CategoriasListRoundTrip` | diarioback/serializers.py:266-328 | a non-empty list of non-empty tokens free of commas and whitespace is accepted as their join exactly when every token is a flat or legacy key, and an accepted list is stored and read back as the same list |
| `Serializers.AcceptedCategoriasAreSaved` | diarioback/serializers.py:309-323 | whatever the serializer accepts, the corrected save-time check accepts with the same text |
| `Serializers.LegacyCategoryRefusedAsWritten` | diarioback/serializers.py:315-318 | `argentina` passes the serializer but the staticmethod as written refuses it, so `save` rejects it |
| `Serializers.ArgentinaIsNotACategory` | diarioback/models.py:178-216 | the legacy token is not in `FLAT_CATEGORIAS` |
| `Serializers.Merge` | diarioback/serializers.py:350-353 | a supplied field replaces the stored value, an absent one keeps it |
| `Serializers.MergeTruthy` | diarioback/serializers.py:334-360 | the categories and each image are overwritten only by a truthy value, and otherwise keep the stored one |
| `Serializers.MergeFields` | diarioback/serializers.py:341-353 | each listed field the data supplies is copied, every other column (images, editors, slug, counters) is unchanged |
| `Serializers.MergeImages` | diarioback/serializers.py:355-360 | each of `imagen_1` ... `imagen_6` is `MergeTruthy` of its stored value and the supplied one |
| `Serializers.UpdateNoticia` | diarioback/serializers.py:330-370 | every listed field merged as `MergeFields` states, images as `MergeImages`, supplied editors become exactly the supplied set; `id`, `imagen_cabecera` and the counters stay; the outcome is the save's |
| `Serializers.MergeRequest` | diarioback/serializers.py:330-366 | the merges of `update` before its save: every listed field, the images and the editors as supplied; `id`, slug, `imagen_cabecera` and counters unchanged |
| `Serializers.CreateNoticia` | diarioback/serializers.py:286-307 | the article built from the data (as `NewNoticia` states) is saved with `force_insert`: the outcome is the category refusal or the duplicate insert, never success, and the editors are never assigned |
| `Serializers.CreateNoticiaCorrected` | diarioback/serializers.py:286-307 | with only one insert: the article built from the data (visit counter included) is saved exactly as the category check decides, gets a free slug and then the supplied editors; a refused one gets none |
| `Serializers.NewNoticia` | diarioback/serializers.py:286-304 | the unsaved row: fields from the data, categories `''` when empty, `subtitulo` and `contenido` defaulting to `default content`, the flags to false, the visit counter as supplied (0 when absent), no slug and no editors |
| `Serializers.ValidateFotoPerfil` | diarioback/serializers.py:156-162 | a value under `MEDIA_URL` is kept, a value starting with `/` is prefixed with `MEDIA_URL` without its trailing `/`, anything else is refused |
| `Serializers.NormalizeFotoPerfil` | diarioback/serializers.py:164-176 | removes one leading `MEDIA_URL`, or otherwise every leading `/`; other values pass unchanged |
| `Serializers.FotoPerfilStoredRelative` | diarioback/serializers.py:156-176 | a validated `/path` is stored as the path relative to the media root |
| `Serializers.UserProfile.Update` | diarioback/serializers.py:164-184 | a supplied photo value is stored normalised; otherwise an uploaded local photo sets the photo to the upload's URL; `nombre` and `apellido` never change |
| `Serializers.ValidateResetPassword` | diarioback/serializers.py:404-419 | accepted exactly when the fields pass their own checks, the passwords match, both have at least 8 characters and the token is valid; field errors come first, exactly when some field check fails, and flag exactly the failing fields |
| `Text.Strip` | diarioback/models.py:223 | the result is no longer than the input and has no whitespace at either end |
| `Text.StripMiddle` | diarioback/models.py:223 | the result is the slice of the input between its leading and its trailing whitespace, and everything dropped on either side is whitespace |
| `Text.StripSlice` | diarioback/models.py:223 | the result is the slice of the input that starts where `lstrip` starts |
| `Text.StripDropsSpace` | diarioback/models.py:223 | every character dropped before or after the result is whitespace |
| `Text.Split` | diarioback/models.py:222 | at least one piece, none containing the separator |
| `Text.Join` | diarioback/models.py:227 | the first piece comes first, followed by the separator when there are more |
| `Text.ParseInt` | diarioback/views.py:315-319 | blank text is refused, a run of digits reads as its value, a minus sign then digits as the negated value, and a plus sign then digits as the value |
| `Text.ParseIntAccepted` | diarioback/views.py:315-319 | `int()` succeeds exactly when the stripped text, without one leading sign, is digits separated by single underscores |
| `Text.ParseIntRefusesStrayChar` | diarioback/views.py:315-319 | any character other than a digit or `_` after the optional leading sign (a letter, a decimal point, a second sign) makes `int()` raise |
| `Text.ParseIntRefusesDoubledUnderscore` | diarioback/views.py:315-319 | a doubled underscore makes `int()` raise |
| `Text.ParseIntOfGroups` | diarioback/views.py:315-319 | accepted digit groups read as the number their digits denote once the underscores are dropped, negated after a minus sign |
| `Text.StripIdempotent` | diarioback/models.py:222-223 | stripping a stripped token changes nothing |
| `Text.SplitJoin` | diarioback/serializers.py:280-281 | splitting a join of comma-free pieces gives the pieces back |
| `Text.JoinSplit` | diarioback/models.py:329-330 | joining a split gives the text back |
| `Text.FirstPieceBeforeSep` | diarioback/views.py:633-634 | the first piece of `split('-', 1)` is everything before the first `-` |
| `Text.ContainsAt` | diarioback/views.py:509-512 | `categorias__contains` holds exactly when the token occurs at some position |
| `Text.ParseIntOfNatToString` | diarioback/views.py:315-319 | `int(str(n)) == n` |
| `Text.ParseIntOfNegated` | diarioback/views.py:315-319 | `int('-' + str(n)) == -n` |
| `Admin.AuthAdminPermission` | diarioback/admin.py:9-27 | on `User` and `Group`, add, change and delete are permitted exactly for superusers |
| `Admin.TrabajadorChangePermission` | diarioback/admin.py:92-97 | a superuser may; anyone else exactly when a worker is given and its `user` is the requester |
| `Admin.NoticiaChangePermission` | diarioback/admin.py:218-223 | a superuser may; anyone else exactly when an article is given and the requester is its author's user |
| `Admin.ComentarioChangePermission` | diarioback/admin.py:254-259 | a superuser may; anyone else only when a comment is given and the requester is the user of its article's author |
| `Admin.ComentarioChangeFollowsNoticia` | diarioback/admin.py:254-259 | a comment may be changed by exactly those who may change its article |
| `Admin.ChangeListSuperuserOnly` | diarioback/admin.py:92-97 | with no object, the three change hooks admit exactly the superusers, like the `User` and `Group` admins |
| `Admin.OnlyTheAuthorChanges` | diarioback/admin.py:218-223 | with accounts and workers one to one, at most one non-superuser may change a given article |
| `Admin.TrabajadorOfUser` | diarioback/admin.py:249 | the lookup finds the account's worker, or raises `DoesNotExist` when it has none |
| `Admin.ComentarioAddPermission` | diarioback/admin.py:245-252 | a superuser may; anyone else exactly when `Comentario.save` would accept them as author: a worker whose role may comment |
| `Admin.ComentarioInlineAddPermission` | diarioback/admin.py:118-123 | an account without a worker is refused unless superuser |
| `Admin.InlineAgreesWithAdmin` | diarioback/admin.py:118-123 | the inline and the comment admin agree on who may add |
| `Admin.SuperuserWithoutWorkerRefusedOnSave` | diarioback/admin.py:245-252 | a superuser without a worker may add, yet a comment naming them as author is refused on save |
| `Admin.TieneRespuesta` | diarioback/admin.py:239-240 | true exactly when the answer is present and non-empty |
| `Admin.TieneRespuestaOnlyReadsAnswer` | diarioback/admin.py:239-240 | setting an answer marks the comment answered exactly when the text is non-empty, clearing it unmarks it, and no other field matters |
| `Admin.TrabajadorFormSave` | diarioback/admin.py:50-56 | the worker's `correo` becomes its account's email; with `commit` an existing local file's upload URL becomes the photo, a set photo is kept, and an empty one becomes `DEFAULT_FOTO_PERFIL_URL`; without `commit` the photo is untouched |
| `Admin.TrabajadorSaveModel` | diarioback/admin.py:86-89 | the worker's `correo` becomes its account's email; an existing local file's upload URL becomes the photo, a set photo is kept, and an empty one becomes `DEFAULT_FOTO_PERFIL_URL` |

## Left out

- Pagination, `select_related`/`prefetch_related`, `cache_page` and serializer field declarations are ORM or HTTP plumbing with no rule of their own. Queries are functions over in-memory sequences and maps.
- The request filters of `NoticiaViewSet.get_queryset` (`autor`, `estado`, `categoria`, date range) and the `buscar` search query are not part of the modelled core. Only `buscar`'s default limit of 20 is kept as a constant.
- Image uploads and deletions on the image host, with their retry loop, are network I/O. Their outcome is a parameter (`uploaded`, `localFileExists`), and old-image deletion is not modelled.
- `slugify` is a library function: a parameter. The set of slugs already taken stands for the `filter(slug=...).exists()` query.
- `isdigit` and `int()` are modelled for ASCII digits only. Other Unicode digits are not modelled.
- `int()` accepts signs, surrounding whitespace and single underscores between digits, as modelled. The whitespace stripped is Python's (Unicode) whitespace, as `str.strip` strips it.
- Concurrency is not modelled. The model is sequential and claims nothing about lost updates in `contador_visitas += 1; save()`.
- The averages of `estadisticas_visitas` are floating point and are not modelled. `contador_visitas_total` is taken as a stored column.
- `MensajeGlobal.esta_expirado` and `PasswordResetToken.is_valid` live on models that are not part of this model. They enter as parameters.
- Deleting a message is assumed to delete its replies (`on_delete=CASCADE` on the reply's foreign key, which is not part of this model).
- `mi_reaccion`, `mis_mensajes`, `create`/`perform_create` of messages, the editor add/remove actions, the donation and profile CRUD views, and `update_user_profile` are outside the modelled core.
- `Trabajador.save` creates a `UserProfile` when the worker has none. That creation is not modelled; only the photo rules are.
- `TrabajadorForm.save` and `save_model` also assign `trabajador.contraseña`, but `Trabajador` has no such field. The assignment sets a plain attribute that is never stored, so only `correo` is modelled.
- `ComentarioInline.save_model` (setting the author of a new inline comment) is not one of the modelled hooks.
- The admin's display methods (`user_link`, `mostrar_foto_perfil`, `autor_link`, `editor_en_jefe_link`, `icono_comentarios`, `display_categorias`, `visitas_ultimas_24h`) produce HTML only.
- The debug `print` in `Noticia.save` is output only.
- `NoticiaViews.RecientesPrefixOfDestacadas`: articles with the same `fecha_publicacion` (a date, so same-day articles tie) keep their table order in the model, because `Ranking.SortDesc` is a stable sort. The database leaves the order of tied rows unspecified in each of the two separate queries (diarioback/views.py:392-394 and 411-413), so the row-for-row prefix and same-answer claims hold for the model's order only. What holds for every tie order is `NoticiaViews.RecientesDatesPrefixOfDestacadas`: the dates agree position by position.
- `Models.Noticia.Save`: the image handling after the first write of every save (diarioback/models.py:293-325) is not modelled. That code re-uploads each image that still points at a local file, sets empty image URLs to NULL, and deletes an image from the host when it has been replaced. `Save` states only the category check, the slug and the stored row.
- One request reads the clock once: every operation takes a single `now`. The source calls `timezone.now()` more than once in some places (diarioback/views.py:1129 and 1134; diarioback/models.py:362 and 364). The microseconds between those calls are not modelled.
- `Serializers.CreateNoticia`: the model states the outcome and that the editors are never assigned. Whether the row from the first insert stays in the database depends on the transaction settings, which are not part of this model.
- `Text.IContains`: case-insensitive matching folds ASCII letters only. The database's own case folding of other letters depends on the backend and is not modelled.
- JSON arrays, objects and floating-point numbers in request bodies are not modelled. `MensajeViews.JsonValue` covers null, booleans, integers and strings.
- `Models.Noticia`: SQL NULL and the empty string are both `""` for `categorias` and the image URLs, since every rule modelled treats them alike.
- `Admin.ComentarioInlineAddPermission`: its own contract states only the refusal of accounts without a worker. The full rule is its equality with `Admin.ComentarioAddPermission`, proved in `Admin.InlineAgreesWithAdmin`.
- `Admin.ComentarioChangePermission`: its own contract states one direction. Both directions follow from its equality with `Admin.NoticiaChangePermission` in `Admin.ComentarioChangeFollowsNoticia`.
- The editors of an article are a set of worker ids. The `editor_en_jefe` foreign key of the model file is not modelled, since the serializer and views use the `editores_en_jefe` relation.

## Findings

| source | as written | input that shows it | evidently intended | confidence | as-written member | corrected member |
|---|---|---|---|---|---|---|
| diarioback/models.py:385-394 | `Noticia.save` validates with the staticmethod, which knows only `FLAT_CATEGORIAS`, while the serializer also accepts the legacy token `argentina` | `categorias = "argentina"`: accepted by `NoticiaSerializer.validate_categorias`, then `save` raises `ValidationError` | the save-time check admits what the serializer admits | not executed | `Serializers.LegacyCategoryRefusedAsWritten` | `Models.ValidateCategoriasOnSave` |
| diarioback/views.py:315-326 | `int(limit)` accepts a negative number, and slicing a queryset with a negative bound raises, so the endpoint answers with a server error | `?limit=-1` on `mas_vistas` (and every endpoint with the same pattern) | a limit that cannot be used falls back to the endpoint's default | not executed | `NoticiaViews.NegativeLimitRaises` | `NoticiaViews.LimitParam` |
| diarioback/serializers.py:301 | `Noticia.objects.create` saves with `force_insert=True`, and `Noticia.save` (diarioback/models.py:272-328) passes that keyword to both of its `super().save` calls, so the second one inserts the same primary key again and raises | any valid create request, e.g. categories `Portada` | the article is inserted once and then gets its editors | not executed | `Serializers.CreateNoticia` | `Serializers.CreateNoticiaCorrected` |

The corrected definitions carry the intended properties:

- `Serializers.AcceptedCategoriasAreSaved` proves that anything the serializer accepts passes the corrected save-time check.
- `NoticiaViews.LimitNeverRaises` proves that the corrected limit never makes the slice raise.
- `Serializers.CreateNoticiaCorrected` proves that an article the category check accepts is stored with a free slug and its editors.

The operations themselves follow the code as written: `Models.SaveCheck` and everything built on it (`Models.Noticia.Save`, `Models.Noticia.IncrementarVisitas`, `NoticiaViews.Retrieve`, `Serializers.UpdateNoticia`, `Serializers.CreateNoticia`) use the staticmethod validator, and every endpoint with a `limit` reads it as written and raises on a negative one. The corrected definitions are kept beside them.
