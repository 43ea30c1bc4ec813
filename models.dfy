/** The article, visit, worker, comment and reaction records of the news backend
    and the rules their `save` methods and helpers enforce. */
module Models {
  import opened Common
  import opened Text

  // ===========================================================================
  // Field validator for positive numbers
  // ===========================================================================

  /** `validate_positive`: refuses every value that is not strictly positive. */
  function ValidatePositive(value: int): (ok: bool)
    ensures ok <==> value > 0
  {
    !(value <= 0)
  }

  // ===========================================================================
  // The category table and its flattening
  // ===========================================================================

  /** One row of `Noticia.CATEGORIAS`: a plain `(key, label)` pair, or a group label
      whose second element is a tuple of `(key, label)` subcategories. */
  datatype CategoryEntry =
    | Single(key: string, display: string)
    | Group(display: string, subcategories: seq<(string, string)>)

  /** `Noticia.CATEGORIAS` */
  const CATEGORIAS: seq<CategoryEntry> := [
    Single("Portada", "portada"),
    Group("Politica", [("legislativos", "Legislativos"), ("judiciales", "Judiciales"),
                       ("conurbano", "Conurbano"), ("provincias", "Provincias"),
                       ("municipios", "Municipios"), ("protestas", "Protestas")]),
    Group("Cultura", [("cine", "Cine"), ("literatura", "Literatura"), ("moda", "Moda"),
                      ("tecnologia", "Tecnologia"), ("eventos", "Eventos")]),
    Group("Economia", [("finanzas", "Finanzas"), ("negocios", "Negocios"),
                       ("empresas", "Empresas"), ("dolar", "Dolar")]),
    Group("Mundo", [("politica_exterior", "Politica Exterior"), ("estados_unidos", "Estados Unidos"),
                    ("asia", "Asia"), ("medio_oriente", "Medio Oriente"),
                    ("internacional", "Internacional")])
  ]

  /** The keys of a group's subcategories, in order. */
  function SubcategoryKeys(subs: seq<(string, string)>): (keys: seq<string>)
    ensures |keys| == |subs|
    ensures forall j :: 0 <= j < |subs| ==> keys[j] == subs[j].0
  {
    seq(|subs|, j requires 0 <= j < |subs| => subs[j].0)
  }

  /** What one table row adds to the flat list: its own key, or its subcategory keys. */
  function Contribution(e: CategoryEntry): seq<string> {
    match e
    case Single(key, _) => [key]
    case Group(_, subs) => SubcategoryKeys(subs)
  }

  /** The flat list of a table, row by row: every key a row contributes is in it. */
  function Flatten(table: seq<CategoryEntry>): (r: seq<string>)
    ensures forall i, x :: 0 <= i < |table| && x in Contribution(table[i]) ==> x in r
    decreases |table|
  {
    if table == [] then []
    else
      var init := table[..|table| - 1];
      assert forall i :: 0 <= i < |init| ==> init[i] == table[i];
      Flatten(init) + Contribution(table[|table| - 1])
  }

  /** The loop that builds `FLAT_CATEGORIAS` with `extend` for groups and `append`
      for plain rows. */
  method FlattenCategorias(table: seq<CategoryEntry>) returns (flat: seq<string>)
    ensures flat == Flatten(table)
  {
    flat := [];
    for i := 0 to |table|
      invariant flat == Flatten(table[..i])
    {
      assert table[..i + 1][..i] == table[..i];
      match table[i]
      case Group(_, subs) =>
        for j := 0 to |subs|
          invariant flat == Flatten(table[..i]) + SubcategoryKeys(subs[..j])
        {
          assert SubcategoryKeys(subs[..j + 1]) == SubcategoryKeys(subs[..j]) + [subs[j].0];
          flat := flat + [subs[j].0];
        }
        assert subs[..|subs|] == subs;
      case Single(key, _) =>
        flat := flat + [key];
    }
    assert table[..|table|] == table;
  }

  /** `Noticia.FLAT_CATEGORIAS` */
  const FLAT_CATEGORIAS: seq<string> := Flatten(CATEGORIAS)

  /** A key is in the flat list exactly when some row contributes it. */
  lemma {:induction false} FlattenMembership(table: seq<CategoryEntry>, x: string)
    ensures x in Flatten(table) <==> exists i :: 0 <= i < |table| && x in Contribution(table[i])
    decreases |table|
  {
    if table != [] {
      var init := table[..|table| - 1];
      FlattenMembership(init, x);
      if x in Flatten(init) {
        var i :| 0 <= i < |init| && x in Contribution(init[i]);
        assert table[i] == init[i];
      }
      if exists i :: 0 <= i < |table| && x in Contribution(table[i]) {
        var i :| 0 <= i < |table| && x in Contribution(table[i]);
        if i < |table| - 1 {
          assert init[i] == table[i];
        }
      }
    }
  }

  /** `Flatten` of one more row appends that row's contribution. */
  lemma FlattenStep(table: seq<CategoryEntry>, i: nat)
    requires 0 < i <= |table|
    ensures Flatten(table[..i]) == Flatten(table[..i - 1]) + Contribution(table[i - 1])
  {
    assert table[..i][..i - 1] == table[..i - 1];
  }

  /** The keys of the `Politica` and `Cultura` groups. */
  lemma FirstGroupKeys()
    ensures Contribution(CATEGORIAS[1]) ==
      ["legislativos", "judiciales", "conurbano", "provincias", "municipios", "protestas"]
    ensures Contribution(CATEGORIAS[2]) == ["cine", "literatura", "moda", "tecnologia", "eventos"]
  {
  }

  /** The keys of the `Economia` and `Mundo` groups. */
  lemma LastGroupKeys()
    ensures Contribution(CATEGORIAS[3]) == ["finanzas", "negocios", "empresas", "dolar"]
    ensures Contribution(CATEGORIAS[4]) ==
      ["politica_exterior", "estados_unidos", "asia", "medio_oriente", "internacional"]
  {
  }

  /** `FLAT_CATEGORIAS` is `'Portada'` followed by every subcategory key, in table order. */
  lemma FlatCategoriasValue()
    ensures FLAT_CATEGORIAS ==
      ["Portada"] +
      ["legislativos", "judiciales", "conurbano", "provincias", "municipios", "protestas"] +
      ["cine", "literatura", "moda", "tecnologia", "eventos"] +
      ["finanzas", "negocios", "empresas", "dolar"] +
      ["politica_exterior", "estados_unidos", "asia", "medio_oriente", "internacional"]
  {
    FlattenOfFive(CATEGORIAS);
    FirstGroupKeys();
    LastGroupKeys();
  }

  /** A five-row table flattens to its rows' contributions, in order. */
  lemma FlattenOfFive(table: seq<CategoryEntry>)
    requires |table| == 5
    ensures Flatten(table) == Contribution(table[0]) + Contribution(table[1]) + Contribution(table[2]) +
                              Contribution(table[3]) + Contribution(table[4])
  {
    var c := seq(5, i requires 0 <= i < 5 => Contribution(table[i]));
    assert Flatten(table[..1]) == c[0] by {
      FlattenStep(table, 1);
      assert table[..0] == [];
      assert [] + c[0] == c[0];
    }
    assert Flatten(table[..2]) == c[0] + c[1] by {
      FlattenStep(table, 2);
    }
    assert Flatten(table[..3]) == c[0] + c[1] + c[2] by {
      FlattenStep(table, 3);
    }
    assert Flatten(table[..4]) == c[0] + c[1] + c[2] + c[3] by {
      FlattenStep(table, 4);
    }
    assert Flatten(table[..5]) == c[0] + c[1] + c[2] + c[3] + c[4] by {
      FlattenStep(table, 5);
    }
    assert table[..5] == table;
  }

  /** A key that starts with a lower-case ASCII letter. */
  predicate StartsLower(key: string) {
    |key| > 0 && 'a' <= key[0] <= 'z'
  }

  /** Every key of `keys` starts with a lower-case letter. */
  predicate AllStartLower(keys: seq<string>) {
    forall k :: 0 <= k < |keys| ==> StartsLower(keys[k])
  }

  /** The subcategory keys all start with a lower-case letter. */
  lemma SubcategoryKeysStartLower()
    ensures AllStartLower(["legislativos", "judiciales", "conurbano", "provincias", "municipios", "protestas"])
    ensures AllStartLower(["cine", "literatura", "moda", "tecnologia", "eventos"])
    ensures AllStartLower(["finanzas", "negocios", "empresas", "dolar"])
    ensures AllStartLower(["politica_exterior", "estados_unidos", "asia", "medio_oriente", "internacional"])
  {
  }

  /** A member of a list whose keys all start lower-case starts lower-case. */
  lemma MemberStartsLower(x: string, keys: seq<string>)
    requires x in keys && AllStartLower(keys)
    ensures StartsLower(x)
  {
  }

  /** Each flat key is `Portada` or the key of a subcategory of one of the groups. */
  lemma FlatKeyOrigin(x: string)
    requires x in FLAT_CATEGORIAS
    ensures || x == "Portada"
            || x in ["legislativos", "judiciales", "conurbano", "provincias", "municipios", "protestas"]
            || x in ["cine", "literatura", "moda", "tecnologia", "eventos"]
            || x in ["finanzas", "negocios", "empresas", "dolar"]
            || x in ["politica_exterior", "estados_unidos", "asia", "medio_oriente", "internacional"]
  {
    FlatCategoriasValue();
  }

  /** Apart from `Portada`, every flat key starts with a lower-case letter. */
  lemma FlatKeysStartLower(x: string)
    requires x in FLAT_CATEGORIAS
    ensures x == "Portada" || StartsLower(x)
  {
    FlatKeyOrigin(x);
    SubcategoryKeysStartLower();
    var politica := ["legislativos", "judiciales", "conurbano", "provincias", "municipios", "protestas"];
    var cultura := ["cine", "literatura", "moda", "tecnologia", "eventos"];
    var economia := ["finanzas", "negocios", "empresas", "dolar"];
    var mundo := ["politica_exterior", "estados_unidos", "asia", "medio_oriente", "internacional"];
    if x in politica {
      MemberStartsLower(x, politica);
    } else if x in cultura {
      MemberStartsLower(x, cultura);
    } else if x in economia {
      MemberStartsLower(x, economia);
    } else if x in mundo {
      MemberStartsLower(x, mundo);
    }
  }

  /** The group labels are never category keys: apart from `Portada` every key
      starts with a lower-case letter, and every label with a capital. */
  lemma GroupLabelsAreNotCategories()
    ensures "Politica" !in FLAT_CATEGORIAS && "Cultura" !in FLAT_CATEGORIAS
    ensures "Economia" !in FLAT_CATEGORIAS && "Mundo" !in FLAT_CATEGORIAS
  {
    var labels := ["Politica", "Cultura", "Economia", "Mundo"];
    forall x | x in labels ensures x !in FLAT_CATEGORIAS {
      if x in FLAT_CATEGORIAS {
        FlatKeysStartLower(x);
      }
    }
  }

  /** The tokens the serializer still accepts for articles already stored with them
      (`temp_allowed` in `NoticiaSerializer.validate_categorias`). */
  const LEGACY_CATEGORIAS: seq<string> := ["argentina"]

  // ===========================================================================
  // Category validators
  // ===========================================================================

  /** The tokens of `toks` that are not in `allowed`, in order. */
  function InvalidTokens(toks: seq<string>, allowed: seq<string>): (bad: seq<string>)
    ensures forall k :: 0 <= k < |bad| ==> bad[k] in toks && bad[k] !in allowed
    ensures forall k :: 0 <= k < |toks| && toks[k] !in allowed ==> toks[k] in bad
    ensures bad == [] <==> forall k :: 0 <= k < |toks| ==> toks[k] in allowed
    decreases |toks|
  {
    if toks == [] then []
    else if toks[0] in allowed then InvalidTokens(toks[1..], allowed)
    else [toks[0]] + InvalidTokens(toks[1..], allowed)
  }

  /** `[f(p) for p in pieces if f(p)]` for a function `f` on strings. */
  function NonEmptyImages(pieces: seq<string>, f: string -> string): (toks: seq<string>)
    ensures |toks| <= |pieces|
    ensures forall k :: 0 <= k < |toks| ==> toks[k] != ""
    decreases |pieces|
  {
    if pieces == [] then []
    else if f(pieces[0]) != "" then [f(pieces[0])] + NonEmptyImages(pieces[1..], f)
    else NonEmptyImages(pieces[1..], f)
  }

  /** Each element `NonEmptyImages` keeps is the image of one of the pieces. */
  lemma {:induction false} NonEmptyImageOrigin(pieces: seq<string>, f: string -> string, k: nat) returns (j: nat)
    requires k < |NonEmptyImages(pieces, f)|
    ensures j < |pieces| && NonEmptyImages(pieces, f)[k] == f(pieces[j])
    decreases |pieces|
  {
    if f(pieces[0]) != "" {
      if k == 0 {
        j := 0;
      } else {
        var j' := NonEmptyImageOrigin(pieces[1..], f, k - 1);
        j := j' + 1;
      }
    } else {
      var j' := NonEmptyImageOrigin(pieces[1..], f, k);
      j := j' + 1;
    }
  }

  /** `[cat.strip() for cat in pieces if cat.strip()]` */
  function StrippedTokens(pieces: seq<string>): (toks: seq<string>)
    ensures |toks| <= |pieces|
    ensures forall k :: 0 <= k < |toks| ==> toks[k] != ""
  {
    NonEmptyImages(pieces, Strip)
  }

  /** A stripped piece of a comma-split string holds no comma. */
  lemma StripKeepsCommaFree(s: string)
    requires ',' !in s
    ensures ',' !in Strip(s)
  {
    var l := LStrip(s);
    var r := RStrip(l);
  }

  /** The field validator bound at `categorias = models.TextField(validators=[...])`:
      empty input gives `''`; otherwise the comma-split tokens are stripped, empty
      ones dropped, any token outside `FLAT_CATEGORIAS` refused (the error lists
      them), and the tokens come back joined with `','`. */
  function ValidateCategoriasField(value: string): (r: Result<string, seq<string>>)
    ensures value == "" ==> r == Ok("")
    ensures value != "" ==>
      (r.Err? <==> exists k :: 0 <= k < |StrippedTokens(Split(value, ','))| &&
                               StrippedTokens(Split(value, ','))[k] !in FLAT_CATEGORIAS)
    ensures r.Err? ==> r.error == InvalidTokens(StrippedTokens(Split(value, ',')), FLAT_CATEGORIAS)
    ensures r.Err? ==> r.error != [] && forall k :: 0 <= k < |r.error| ==> r.error[k] !in FLAT_CATEGORIAS
    ensures value != "" && r.Ok? ==> r.value == Join(StrippedTokens(Split(value, ',')), ',')
    ensures r.Ok? && r.value != "" ==>
      forall k :: 0 <= k < |Split(r.value, ',')| ==> Split(r.value, ',')[k] in FLAT_CATEGORIAS
  {
    CheckStrippedTokens(value, FLAT_CATEGORIAS)
  }

  /** The field validator's rule for any list of allowed tokens. */
  function CheckStrippedTokens(value: string, allowed: seq<string>): (r: Result<string, seq<string>>)
    ensures value == "" ==> r == Ok("")
    ensures value != "" ==>
      (r.Err? <==> exists k :: 0 <= k < |StrippedTokens(Split(value, ','))| &&
                               StrippedTokens(Split(value, ','))[k] !in allowed)
    ensures r.Err? ==> r.error == InvalidTokens(StrippedTokens(Split(value, ',')), allowed)
    ensures r.Err? ==> r.error != [] && forall k :: 0 <= k < |r.error| ==> r.error[k] !in allowed
    ensures value != "" && r.Ok? ==> r.value == Join(StrippedTokens(Split(value, ',')), ',')
    ensures r.Ok? && r.value != "" ==>
      forall k :: 0 <= k < |Split(r.value, ',')| ==> Split(r.value, ',')[k] in allowed
  {
    if value == "" then Ok("")
    else
      var toks := StrippedTokens(Split(value, ','));
      var bad := InvalidTokens(toks, allowed);
      if bad != [] then Err(bad)
      else
        CommaFreeTokens(value, toks);
        Ok(Join(toks, ','))
  }

  /** The tokens `ValidateCategoriasField` keeps are comma-free, stripped and non-empty. */
  lemma CommaFreeTokens(value: string, toks: seq<string>)
    requires toks == StrippedTokens(Split(value, ','))
    ensures forall k :: 0 <= k < |toks| ==> ',' !in toks[k] && toks[k] != "" && Strip(toks[k]) == toks[k]
    ensures toks != [] ==> Split(Join(toks, ','), ',') == toks
  {
    var pieces := Split(value, ',');
    forall k | 0 <= k < |toks| ensures ',' !in toks[k] && Strip(toks[k]) == toks[k] {
      var j := NonEmptyImageOrigin(pieces, Strip, k);
      StripKeepsCommaFree(pieces[j]);
      StripIdempotent(pieces[j]);
    }
    if toks != [] {
      SplitJoin(toks, ',');
    }
  }

  /** Tokens that are already stripped and non-empty survive `StrippedTokens` unchanged. */
  lemma StrippedTokensFixed(toks: seq<string>)
    requires forall k :: 0 <= k < |toks| ==> toks[k] != "" && Strip(toks[k]) == toks[k]
    ensures StrippedTokens(toks) == toks
  {
    NonEmptyImagesFixed(toks, Strip);
  }

  /** Non-empty pieces that `f` leaves alone all survive `NonEmptyImages`. */
  lemma {:induction false} NonEmptyImagesFixed(pieces: seq<string>, f: string -> string)
    requires forall k :: 0 <= k < |pieces| ==> pieces[k] != "" && f(pieces[k]) == pieces[k]
    ensures NonEmptyImages(pieces, f) == pieces
    decreases |pieces|
  {
    if pieces != [] {
      NonEmptyImagesFixed(pieces[1..], f);
      assert [pieces[0]] + pieces[1..] == pieces;
    }
  }

  /** Validating what the field validator returned gives it back unchanged. */
  lemma ValidateCategoriasFieldIdempotent(value: string)
    requires ValidateCategoriasField(value).Ok?
    ensures ValidateCategoriasField(ValidateCategoriasField(value).value) == ValidateCategoriasField(value)
  {
    if value != "" {
      var toks := StrippedTokens(Split(value, ','));
      CommaFreeTokens(value, toks);
      var joined := Join(toks, ',');
      if toks != [] {
        SplitJoin(toks, ',');
        StrippedTokensFixed(toks);
      }
    }
  }

  /** What the `validate_categorias` staticmethod returns: an empty list for empty
      input, otherwise the input text itself. */
  datatype CategoriasValue = EmptyList | Text(text: string)

  /** The `validate_categorias` staticmethod as written, which `Noticia.save` calls:
      empty input gives `[]`; a comma-split token outside `FLAT_CATEGORIAS` is refused
      (tokens are not stripped); otherwise the input is returned unchanged. */
  function ValidateCategoriasStatic(value: string): (r: Result<CategoriasValue, seq<string>>)
    ensures value == "" ==> r == Ok(EmptyList)
    ensures value != "" && r.Ok? ==> r.value == Text(value)
    ensures value != "" && r.Ok? ==> forall k :: 0 <= k < |Split(value, ',')| ==> Split(value, ',')[k] in FLAT_CATEGORIAS
    ensures value != "" && r.Err? ==> exists k :: 0 <= k < |Split(value, ',')| && Split(value, ',')[k] !in FLAT_CATEGORIAS
    ensures r.Err? ==> r.error != [] && forall k :: 0 <= k < |r.error| ==> r.error[k] in Split(value, ',') && r.error[k] !in FLAT_CATEGORIAS
    ensures r.Err? ==> r.error == InvalidTokens(Split(value, ','), FLAT_CATEGORIAS)
  {
    if value == "" then Ok(EmptyList)
    else
      var toks := Split(value, ',');
      var bad := InvalidTokens(toks, FLAT_CATEGORIAS);
      if bad != [] then Err(bad) else Ok(Text(value))
  }

  /** The save-time validator with the legacy tokens admitted, as the serializer
      admits them: the check `Noticia.save` needs so that an article the serializer
      accepted can be stored. */
  function ValidateCategoriasOnSave(value: string): (r: Result<CategoriasValue, seq<string>>)
    ensures value == "" ==> r == Ok(EmptyList)
    ensures value != "" && r.Ok? ==> r.value == Text(value)
    ensures value != "" && r.Ok? ==> forall k :: 0 <= k < |Split(value, ',')| ==>
      Split(value, ',')[k] in FLAT_CATEGORIAS || Split(value, ',')[k] in LEGACY_CATEGORIAS
    ensures value != "" && r.Err? ==>
      exists k :: 0 <= k < |Split(value, ',')| && Split(value, ',')[k] !in FLAT_CATEGORIAS + LEGACY_CATEGORIAS
    ensures r.Err? ==> r.error != [] && forall k :: 0 <= k < |r.error| ==>
      r.error[k] !in FLAT_CATEGORIAS && r.error[k] !in LEGACY_CATEGORIAS
    ensures r.Err? ==> r.error == InvalidTokens(Split(value, ','), FLAT_CATEGORIAS + LEGACY_CATEGORIAS)
  {
    if value == "" then Ok(EmptyList)
    else
      var bad := InvalidTokens(Split(value, ','), FLAT_CATEGORIAS + LEGACY_CATEGORIAS);
      if bad != [] then Err(bad) else Ok(Text(value))
  }

  /** Everything the staticmethod accepts, the corrected save-time check accepts too. */
  lemma OnSaveExtendsStatic(value: string)
    requires ValidateCategoriasStatic(value).Ok?
    ensures ValidateCategoriasOnSave(value) == ValidateCategoriasStatic(value)
  {
  }

  /** `Noticia.get_categorias`: the stored text split on commas, `[]` when empty.
      Comma-free pieces that join back to the text are its split (`SplitJoin`). */
  function GetCategorias(categorias: string): (r: seq<string>)
    ensures categorias == "" <==> r == []
    ensures categorias != "" ==> Join(r, ',') == categorias
    ensures forall k :: 0 <= k < |r| ==> ',' !in r[k]
  {
    if categorias == "" then [] else JoinSplit(categorias, ','); Split(categorias, ',')
  }

  // ===========================================================================
  // Slugs
  // ===========================================================================

  /** `f"{original_slug}-{count}"` */
  function SlugCandidate(base: string, k: nat): string {
    base + "-" + NatToString(k)
  }

  /** Different counters give different candidates, and none equals the base. */
  lemma SlugCandidatesDistinct(base: string, j: nat, k: nat)
    ensures SlugCandidate(base, j) != base
    ensures j != k ==> SlugCandidate(base, j) != SlugCandidate(base, k)
  {
    assert |SlugCandidate(base, j)| > |base|;
    if j != k && SlugCandidate(base, j) == SlugCandidate(base, k) {
      var n := |base| + 1;
      assert SlugCandidate(base, j)[n..] == NatToString(j);
      assert SlugCandidate(base, k)[n..] == NatToString(k);
      NatToStringInjective(j, k);
    }
  }

  /** The slug the loop tries on its `count`-th probe: the base first, then
      `base-1`, `base-2`, ... */
  function SlugAttempt(base: string, count: nat): string
    requires count >= 1
  {
    if count == 1 then base else SlugCandidate(base, count - 1)
  }

  /** The slugs probed before the `count`-th probe. */
  ghost function ProbedSlugs(base: string, count: nat): set<string>
    requires count >= 1
    decreases count
  {
    if count == 1 then {} else ProbedSlugs(base, count - 1) + {SlugAttempt(base, count - 1)}
  }

  /** No probe repeats an earlier one. */
  lemma {:induction false} AttemptNotProbed(base: string, count: nat)
    requires count >= 1
    ensures SlugAttempt(base, count) !in ProbedSlugs(base, count)
    decreases count
  {
    if count > 1 {
      AttemptNotProbedBefore(base, count, count - 1);
    }
  }

  lemma {:induction false} AttemptNotProbedBefore(base: string, count: nat, upTo: nat)
    requires 1 <= upTo < count
    ensures SlugAttempt(base, count) !in ProbedSlugs(base, upTo + 1)
    decreases upTo
  {
    SlugCandidatesDistinct(base, count - 1, upTo - 1);
    if upTo > 1 {
      AttemptNotProbedBefore(base, count, upTo - 1);
    }
  }

  /** What a successful `save` leaves in the slug: a set slug stays; an empty one
      becomes the base when that is free, else `base-k` for the least free `k >= 1`. */
  ghost predicate SlugAfterSave(before: string, after: string, base: string, taken: set<string>) {
    && (before != "" ==> after == before)
    && (before == "" ==> after !in taken)
    && (before == "" && base !in taken ==> after == base)
    && (before == "" && base in taken ==>
          exists k :: k >= 1 && after == SlugCandidate(base, k) &&
            forall j :: 1 <= j < k ==> SlugCandidate(base, j) in taken)
  }

  /** The slug loop of `Noticia.save`: the base slug if it is free, otherwise
      `base-k` for the smallest `k >= 1` whose slug is free. */
  method GenerateSlug(base: string, taken: set<string>) returns (slug: string)
    ensures slug !in taken
    ensures base !in taken ==> slug == base
    ensures base in taken ==>
      exists k :: k >= 1 && slug == SlugCandidate(base, k) && forall j :: 1 <= j < k ==> SlugCandidate(base, j) in taken
  {
    slug := base;
    var count: nat := 1;
    ghost var probed: set<string> := {};
    while slug in taken
      invariant count >= 1 && slug == SlugAttempt(base, count)
      invariant probed == ProbedSlugs(base, count) && probed <= taken
      invariant forall j :: 1 <= j < count ==> SlugAttempt(base, j) in taken
      decreases |taken - probed|
    {
      AttemptNotProbed(base, count);
      assert taken - probed == (taken - (probed + {slug})) + {slug};
      probed := probed + {slug};
      count := count + 1;
      slug := SlugCandidate(base, count - 1);
      AttemptNotProbed(base, count);
    }
    if base in taken {
      assert count >= 2;
      var k := count - 1;
      forall j | 1 <= j < k ensures SlugCandidate(base, j) in taken {
        assert SlugAttempt(base, j + 1) in taken;
      }
    }
  }

  // ===========================================================================
  // Visits
  // ===========================================================================

  /** A `NoticiaVisita` row: the article, when it was recorded and the caller's
      address (null when unknown). */
  datatype Visita = Visita(noticia: nat, fecha: Instant, ipAddress: Option<string>)

  /** The number of visits to `noticia` recorded at or after `since`. */
  function CountVisitsSince(visitas: seq<Visita>, noticia: nat, since: Instant): (n: nat)
    ensures n <= |visitas|
    ensures n > 0 <==> exists i :: 0 <= i < |visitas| && visitas[i].noticia == noticia && visitas[i].fecha >= since
    decreases |visitas|
  {
    if visitas == [] then 0
    else
      var init := visitas[..|visitas| - 1];
      var last := visitas[|visitas| - 1];
      assert forall i :: 0 <= i < |init| ==> init[i] == visitas[i];
      CountVisitsSince(init, noticia, since)
      + (if last.noticia == noticia && last.fecha >= since then 1 else 0)
  }

  /** `Noticia.visitas_ultimas_24h`: this article's visits whose date is at least
      `now - 24h`; none exactly when no visit of the article is that recent. */
  function VisitasUltimas24h(visitas: seq<Visita>, noticia: nat, now: Instant): (c: nat)
    ensures c <= |visitas|
    ensures c == 0 <==> forall i :: 0 <= i < |visitas| && visitas[i].noticia == noticia ==>
      visitas[i].fecha < now - TWENTY_FOUR_HOURS
  {
    CountVisitsSince(visitas, noticia, now - TWENTY_FOUR_HOURS)
  }

  /** Recording a visit at `now` adds exactly one to that article's 24-hour count
      and leaves every other article's count alone. */
  lemma VisitCountsOnRecord(visitas: seq<Visita>, v: Visita, other: nat, now: Instant)
    requires v.fecha == now && other != v.noticia
    ensures VisitasUltimas24h(visitas + [v], v.noticia, now) == VisitasUltimas24h(visitas, v.noticia, now) + 1
    ensures VisitasUltimas24h(visitas + [v], other, now) == VisitasUltimas24h(visitas, other, now)
  {
    assert (visitas + [v])[..|visitas|] == visitas;
  }

  /** A window that starts later counts no more of the article's visits. */
  lemma {:induction false} WindowCountBounded(visitas: seq<Visita>, noticia: nat, since: Instant, earlier: Instant)
    requires earlier <= since
    ensures CountVisitsSince(visitas, noticia, since) <= CountVisitsSince(visitas, noticia, earlier)
    decreases |visitas|
  {
    if visitas != [] {
      WindowCountBounded(visitas[..|visitas| - 1], noticia, since, earlier);
    }
  }

  /** The `NoticiaVisita` table, which only ever grows. */
  class VisitLedger {
    var visitas: seq<Visita>

    constructor ()
      ensures visitas == []
    {
      visitas := [];
    }

    /** `NoticiaVisita.objects.create(...)` */
    method Record(v: Visita)
      modifies this
      ensures visitas == old(visitas) + [v]
    {
      visitas := visitas + [v];
    }
  }

  // ===========================================================================
  // Articles
  // ===========================================================================

  /** What `Noticia.save` did: stored the row; raised `ValidationError` naming the
      refused category tokens (then nothing was stored); or, called with
      `force_insert`, stored the row with its first `super().save` and then raised
      `IntegrityError` when the second one inserted the same primary key again. */
  datatype SaveOutcome = Saved | Rejected(invalid: seq<string>) | DuplicateKey

  /** The category check at the head of `Noticia.save`, which calls the
      `validate_categorias` staticmethod as written: only non-empty text is checked,
      and the legacy tokens are refused. */
  function SaveCheck(categorias: string): (r: SaveOutcome)
    ensures r.Rejected? <==> categorias != "" && ValidateCategoriasStatic(categorias).Err?
    ensures r.Rejected? ==> r.invalid == ValidateCategoriasStatic(categorias).error
    ensures !r.Rejected? ==> r == Saved
  {
    if categorias != "" then
      match ValidateCategoriasStatic(categorias)
      case Err(bad) => Rejected(bad)
      case Ok(_) => Saved
    else Saved
  }

  /** The image URLs that are set, in the order given. */
  function NonEmpty(urls: seq<string>): (r: seq<string>)
    ensures |r| <= |urls|
    ensures forall k :: 0 <= k < |r| ==> r[k] != "" && r[k] in urls
    decreases |urls|
  {
    if urls == [] then []
    else if urls[0] != "" then [urls[0]] + NonEmpty(urls[1..])
    else NonEmpty(urls[1..])
  }

  /** Every set URL of the input appears in `NonEmpty`'s result. */
  lemma {:induction false} NonEmptyKeepsSetUrls(urls: seq<string>, u: string)
    requires u in urls && u != ""
    ensures u in NonEmpty(urls)
    decreases |urls|
  {
    if urls[0] != u {
      NonEmptyKeepsSetUrls(urls[1..], u);
    }
  }

  /** Between two states, at most the visit counter, the window anchor and the slug
      of `a` changed. */
  twostate predicate OnlyVisitColumnsChanged(a: Noticia)
    reads a
  {
    && a.id == old(a.id) && a.nombreNoticia == old(a.nombreNoticia) && a.categorias == old(a.categorias)
    && a.autor == old(a.autor) && a.editores == old(a.editores) && a.fechaPublicacion == old(a.fechaPublicacion)
    && a.estado == old(a.estado) && a.palabrasClave == old(a.palabrasClave) && a.subtitulo == old(a.subtitulo)
    && a.contenido == old(a.contenido) && a.soloParaSubscriptores == old(a.soloParaSubscriptores)
    && a.tieneComentarios == old(a.tieneComentarios) && a.imagenCabecera == old(a.imagenCabecera)
    && a.imagenes == old(a.imagenes)
  }

  /** A `Noticia` row. `categorias` is `""` both for SQL NULL and for an empty text;
      `imagenes` holds `imagen_1` ... `imagen_6` (`""` where the field is empty). */
  class Noticia {
    var id: nat
    var nombreNoticia: string
    var slug: string
    var categorias: string
    var autor: nat
    var editores: set<nat>
    var fechaPublicacion: int
    var estado: Option<nat>
    var palabrasClave: string
    var subtitulo: string
    var contenido: string
    var soloParaSubscriptores: bool
    var tieneComentarios: bool
    var contadorVisitas: nat
    var ultimaActualizacionContador: Instant
    var imagenCabecera: string
    var imagenes: seq<string>

    ghost predicate Valid()
      reads this
    {
      |imagenes| == 6
    }

    constructor (id: nat, nombreNoticia: string, autor: nat, fechaPublicacion: int, now: Instant)
      ensures Valid()
      ensures this.id == id && this.nombreNoticia == nombreNoticia && this.autor == autor
      ensures this.fechaPublicacion == fechaPublicacion
      ensures slug == "" && categorias == "" && editores == {} && estado == None
      ensures contadorVisitas == 0 && ultimaActualizacionContador == now
      ensures imagenCabecera == "" && imagenes == ["", "", "", "", "", ""]
      ensures palabrasClave == "" && subtitulo == "default content" && contenido == "default content"
      ensures !soloParaSubscriptores && !tieneComentarios
    {
      this.id := id;
      this.nombreNoticia := nombreNoticia;
      this.autor := autor;
      this.fechaPublicacion := fechaPublicacion;
      slug := "";
      categorias := "";
      editores := {};
      estado := None;
      contadorVisitas := 0;
      ultimaActualizacionContador := now;
      imagenCabecera := "";
      imagenes := ["", "", "", "", "", ""];
      palabrasClave, subtitulo, contenido := "", "default content", "default content";
      soloParaSubscriptores, tieneComentarios := false, false;
    }

    /** `Noticia.save` without the image uploads: the category check, then the slug
        (only an empty slug is replaced), then the two `super().save(*args, **kwargs)`
        calls. `slugify` is the library function; `taken` holds the slugs of the
        stored rows; `forceInsert` is the `force_insert` keyword the caller passed,
        which both calls receive, so the second one inserts the row a second time.
        When the check refuses, nothing changes. */
    method Save(slugify: string -> string, taken: set<string>, forceInsert: bool) returns (outcome: SaveOutcome)
      modifies this`slug
      ensures SaveCheck(categorias).Rejected? ==> outcome == SaveCheck(categorias)
      ensures SaveCheck(categorias).Saved? ==> outcome == if forceInsert then DuplicateKey else Saved
      ensures outcome.Rejected? || old(slug) != "" ==> slug == old(slug)
      ensures !outcome.Rejected? && old(slug) == "" ==> slug !in taken
      ensures !outcome.Rejected? && old(slug) == "" && slugify(nombreNoticia) !in taken ==> slug == slugify(nombreNoticia)
      ensures !outcome.Rejected? && old(slug) == "" && slugify(nombreNoticia) in taken ==>
        exists k :: k >= 1 && slug == SlugCandidate(slugify(nombreNoticia), k) &&
          forall j :: 1 <= j < k ==> SlugCandidate(slugify(nombreNoticia), j) in taken
    {
      outcome := SaveCheck(categorias);
      if outcome.Rejected? {
        return;
      }
      if slug == "" {
        slug := GenerateSlug(slugify(nombreNoticia), taken);
      }
      if forceInsert {
        outcome := DuplicateKey;
      }
    }

    /** `Noticia.incrementar_visitas`: once more than 24 hours have passed since the
        window anchor the counter restarts at 0 and the anchor moves to `now` (and is
        saved); then one visit with the caller's address is recorded and the counter
        grows by one (and is saved). A save that raises stores nothing of its step:
        if the first one raises no visit is recorded; if the second one raises the
        visit stays recorded but the counter is not stored. */
    method IncrementarVisitas(ledger: VisitLedger, ipAddress: Option<string>, now: Instant,
                              slugify: string -> string, taken: set<string>)
      returns (outcome: SaveOutcome)
      modifies this`contadorVisitas, this`ultimaActualizacionContador, this`slug, ledger
      ensures outcome == SaveCheck(categorias)
      ensures OnlyVisitColumnsChanged(this)
      ensures outcome.Rejected? ==> slug == old(slug)
      ensures outcome.Saved? ==> SlugAfterSave(old(slug), slug, slugify(nombreNoticia), taken)
      ensures outcome.Saved? && now - old(ultimaActualizacionContador) > TWENTY_FOUR_HOURS ==>
        contadorVisitas == 1 && ultimaActualizacionContador == now
      ensures outcome.Saved? && !(now - old(ultimaActualizacionContador) > TWENTY_FOUR_HOURS) ==>
        contadorVisitas == old(contadorVisitas) + 1 && ultimaActualizacionContador == old(ultimaActualizacionContador)
      ensures outcome.Rejected? ==>
        contadorVisitas == old(contadorVisitas) && ultimaActualizacionContador == old(ultimaActualizacionContador)
      ensures ledger.visitas == if outcome.Rejected? && now - old(ultimaActualizacionContador) > TWENTY_FOUR_HOURS
                                then old(ledger.visitas)
                                else old(ledger.visitas) + [Visita(id, now, ipAddress)]
    {
      if now - ultimaActualizacionContador > TWENTY_FOUR_HOURS {
        outcome := Save(slugify, taken, false);
        if outcome.Rejected? {
          return;
        }
        contadorVisitas := 0;
        ultimaActualizacionContador := now;
      }
      ledger.Record(Visita(id, now, ipAddress));
      outcome := Save(slugify, taken, false);
      if outcome.Rejected? {
        return;
      }
      contadorVisitas := contadorVisitas + 1;
    }

    /** `Noticia.get_image_urls`: `imagen_cabecera` then `imagen_1` ... `imagen_6`,
        leaving out the empty ones. */
    method GetImageUrls() returns (urls: seq<string>)
      requires Valid()
      ensures urls == NonEmpty([imagenCabecera] + imagenes)
      ensures |urls| <= 7
    {
      urls := [];
      if imagenCabecera != "" {
        urls := urls + [imagenCabecera];
      }
      for i := 1 to 7
        invariant urls == NonEmpty([imagenCabecera] + imagenes[..i - 1])
      {
        NonEmptySnoc([imagenCabecera] + imagenes[..i - 1], imagenes[i - 1]);
        assert [imagenCabecera] + imagenes[..i] == [imagenCabecera] + imagenes[..i - 1] + [imagenes[i - 1]];
        if imagenes[i - 1] != "" {
          urls := urls + [imagenes[i - 1]];
        }
      }
      assert imagenes[..6] == imagenes;
    }
  }

  /** `NonEmpty` of a list extended by one URL. */
  lemma {:induction false} NonEmptySnoc(urls: seq<string>, u: string)
    ensures NonEmpty(urls + [u]) == NonEmpty(urls) + (if u != "" then [u] else [])
    decreases |urls|
  {
    if urls == [] {
      assert urls + [u] == [u];
    } else {
      assert (urls + [u])[1..] == urls[1..] + [u];
      NonEmptySnoc(urls[1..], u);
    }
  }

  // ===========================================================================
  // Workers, roles and comments
  // ===========================================================================

  /** A `Rol` row: the role's name and its permission flags. */
  datatype Rol = Rol(nombreRol: string, puedePublicar: bool, puedeEditar: bool, puedeEliminar: bool,
                     puedeAsignarRoles: bool, puedeDejarComentarios: bool)

  /** What `Trabajador.objects.get(user=u)` yields for a user that has one: the
      worker's id and role. */
  datatype Staff = Staff(trabajadorId: nat, rol: Rol)

  /** The workers, keyed by the id of their (one-to-one) user account. */
  type StaffDirectory = map<nat, Staff>

  /** `Trabajador.DEFAULT_FOTO_PERFIL_URL` */
  const DEFAULT_FOTO_PERFIL_URL: string := "https://example.com/default-profile.png"

  /** `Trabajador.get_foto_perfil`: the uploaded file's URL if there is one, else the
      photo URL, else the default picture. */
  function GetFotoPerfil(fotoPerfilLocalUrl: string, fotoPerfil: string): (url: string)
    ensures url != ""
    ensures fotoPerfilLocalUrl != "" ==> url == fotoPerfilLocalUrl
    ensures fotoPerfilLocalUrl == "" && fotoPerfil != "" ==> url == fotoPerfil
    ensures fotoPerfilLocalUrl == "" && fotoPerfil == "" ==> url == DEFAULT_FOTO_PERFIL_URL
  {
    if fotoPerfilLocalUrl != "" then fotoPerfilLocalUrl
    else if fotoPerfil != "" then fotoPerfil
    else DEFAULT_FOTO_PERFIL_URL
  }

  /** A `Trabajador` row (the photo fields; `fotoPerfilLocal` stands for the local
      file's URL, `""` when there is none). */
  class Trabajador {
    var id: nat
    var user: nat
    var correo: string
    var nombre: string
    var apellido: string
    var fotoPerfil: string
    var fotoPerfilLocal: string
    var rol: Rol

    constructor (id: nat, user: nat, nombre: string, apellido: string, rol: Rol)
      ensures this.id == id && this.user == user && this.nombre == nombre && this.apellido == apellido
      ensures this.rol == rol && correo == "" && fotoPerfil == "" && fotoPerfilLocal == ""
    {
      this.id := id;
      this.user := user;
      this.nombre := nombre;
      this.apellido := apellido;
      this.rol := rol;
      correo, fotoPerfil, fotoPerfilLocal := "", "", "";
    }

    /** The photo handling of `Trabajador.save`: a local file that exists on disk is
        uploaded and its URL (possibly none) becomes the photo; otherwise a given URL
        is kept; otherwise, and whenever both end up empty, the default picture is
        used. `localFileExists` and `uploaded` are what the file system and the image
        host answered. */
    method Save(localFileExists: bool, uploaded: Option<string>)
      modifies this`fotoPerfil
      ensures fotoPerfil != "" || fotoPerfilLocal != ""
      ensures fotoPerfilLocal != "" && localFileExists ==>
        fotoPerfil == (if uploaded.Some? then uploaded.value else "")
      ensures !(fotoPerfilLocal != "" && localFileExists) && old(fotoPerfil) != "" ==> fotoPerfil == old(fotoPerfil)
      ensures !(fotoPerfilLocal != "" && localFileExists) && old(fotoPerfil) == "" ==> fotoPerfil == DEFAULT_FOTO_PERFIL_URL
    {
      var foto := fotoPerfil;
      if fotoPerfilLocal != "" && localFileExists {
        foto := if uploaded.Some? then uploaded.value else "";
      } else if foto == "" {
        foto := DEFAULT_FOTO_PERFIL_URL;
      }
      if foto == "" && fotoPerfilLocal == "" {
        foto := DEFAULT_FOTO_PERFIL_URL;
      }
      fotoPerfil := foto;
    }
  }

  /** Why `Comentario.save` refused a comment. */
  datatype ComentarioError = CommentingDisabled | AuthorIsNotWorker

  /** The guard of `Comentario.save`: a comment with an author is stored only when
      that author is a worker whose role may comment; one without an author always is. */
  function ComentarioGuard(autor: Option<nat>, staff: StaffDirectory): (r: Option<ComentarioError>)
    ensures r == None <==> autor.None? || (autor.value in staff && staff[autor.value].rol.puedeDejarComentarios)
    ensures r == Some(AuthorIsNotWorker) <==> autor.Some? && autor.value !in staff
  {
    match autor
    case None => None
    case Some(u) =>
      if u !in staff then Some(AuthorIsNotWorker)
      else if !staff[u].rol.puedeDejarComentarios then Some(CommentingDisabled)
      else None
  }

  /** A `Comentario` row. `respuesta` is `None` for SQL NULL. */
  datatype Comentario = Comentario(noticia: nat, autor: Option<nat>, contenido: string, respuesta: Option<string>)

  /** The `Comentario` table. */
  class ComentarioTable {
    var comentarios: seq<Comentario>

    constructor ()
      ensures comentarios == []
    {
      comentarios := [];
    }

    /** `Comentario.save` for a new comment: stored, or refused with nothing stored. */
    method Save(c: Comentario, staff: StaffDirectory) returns (error: Option<ComentarioError>)
      modifies this
      ensures error == ComentarioGuard(c.autor, staff)
      ensures comentarios == if error.None? then old(comentarios) + [c] else old(comentarios)
    {
      error := ComentarioGuard(c.autor, staff);
      if error.None? {
        comentarios := comentarios + [c];
      }
    }
  }

  // ===========================================================================
  // Reactions
  // ===========================================================================

  /** The reaction kinds of `ReaccionNoticia.TIPOS_REACCION`. */
  const INTERESA: string := "interesa"
  const DIVIERTE: string := "divierte"
  const ENTRISTECE: string := "entristece"
  const ENOJA: string := "enoja"

  /** `ReaccionNoticia` rows keyed by `(noticia, usuario)`, the pair the table keeps
      unique; the value is the reaction kind. */
  type ReactionTable = map<(nat, nat), string>

  /** The users whose reaction to `noticia` is of kind `tipo`. */
  function ReactorsOfKind(reacciones: ReactionTable, noticia: nat, tipo: string): set<(nat, nat)> {
    set key | key in reacciones && key.0 == noticia && reacciones[key] == tipo
  }

  /** The four counts `get_conteo_reacciones` reports. */
  datatype Conteo = Conteo(interesa: nat, divierte: nat, entristece: nat, enoja: nat)

  /** `Noticia.get_conteo_reacciones`: a kind's count is positive exactly when some
      user reacted to the article with that kind. */
  function GetConteoReacciones(reacciones: ReactionTable, noticia: nat): (c: Conteo)
    ensures c.interesa > 0 <==> ReactedWith(reacciones, noticia, INTERESA)
    ensures c.divierte > 0 <==> ReactedWith(reacciones, noticia, DIVIERTE)
    ensures c.entristece > 0 <==> ReactedWith(reacciones, noticia, ENTRISTECE)
    ensures c.enoja > 0 <==> ReactedWith(reacciones, noticia, ENOJA)
  {
    KindCountPositive(reacciones, noticia, INTERESA);
    KindCountPositive(reacciones, noticia, DIVIERTE);
    KindCountPositive(reacciones, noticia, ENTRISTECE);
    KindCountPositive(reacciones, noticia, ENOJA);
    Conteo(|ReactorsOfKind(reacciones, noticia, INTERESA)|, |ReactorsOfKind(reacciones, noticia, DIVIERTE)|,
           |ReactorsOfKind(reacciones, noticia, ENTRISTECE)|, |ReactorsOfKind(reacciones, noticia, ENOJA)|)
  }

  /** Some user holds a reaction of kind `tipo` to `noticia`. */
  predicate ReactedWith(reacciones: ReactionTable, noticia: nat, tipo: string) {
    exists key :: key in reacciones && key.0 == noticia && reacciones[key] == tipo
  }

  /** A kind's set of reactors is non-empty exactly when someone reacted that way. */
  lemma KindCountPositive(reacciones: ReactionTable, noticia: nat, tipo: string)
    ensures |ReactorsOfKind(reacciones, noticia, tipo)| > 0 <==> ReactedWith(reacciones, noticia, tipo)
  {
    var s := ReactorsOfKind(reacciones, noticia, tipo);
    if |s| > 0 {
      var key :| key in s;
    }
    if ReactedWith(reacciones, noticia, tipo) {
      var key :| key in reacciones && key.0 == noticia && reacciones[key] == tipo;
      assert key in s;
    }
  }

  /** All reactions to `noticia`. */
  function ReactionsTo(reacciones: ReactionTable, noticia: nat): set<(nat, nat)> {
    set key | key in reacciones && key.0 == noticia
  }

  /** Every stored reaction to `noticia` has one kind, so the four kind sets do not
      overlap and their counts add up to at most the article's reactions, and to
      exactly that when every stored kind is one of the four. */
  lemma ConteoTotal(reacciones: ReactionTable, noticia: nat)
    ensures var c := GetConteoReacciones(reacciones, noticia);
      c.interesa + c.divierte + c.entristece + c.enoja <= |ReactionsTo(reacciones, noticia)|
    ensures (forall key :: key in reacciones ==> reacciones[key] in [INTERESA, DIVIERTE, ENTRISTECE, ENOJA]) ==>
      var c := GetConteoReacciones(reacciones, noticia);
      c.interesa + c.divierte + c.entristece + c.enoja == |ReactionsTo(reacciones, noticia)|
  {
    KindCounts(reacciones, noticia, INTERESA, DIVIERTE, ENTRISTECE, ENOJA);
  }

  /** The counts of four distinct kinds add up to at most all reactions, and to all
      of them when no other kind is stored. */
  lemma KindCounts(reacciones: ReactionTable, noticia: nat, t1: string, t2: string, t3: string, t4: string)
    requires t1 != t2 && t1 != t3 && t1 != t4 && t2 != t3 && t2 != t4 && t3 != t4
    ensures |ReactorsOfKind(reacciones, noticia, t1)| + |ReactorsOfKind(reacciones, noticia, t2)| +
            |ReactorsOfKind(reacciones, noticia, t3)| + |ReactorsOfKind(reacciones, noticia, t4)|
            <= |ReactionsTo(reacciones, noticia)|
    ensures (forall key :: key in reacciones ==> reacciones[key] in [t1, t2, t3, t4]) ==>
            |ReactorsOfKind(reacciones, noticia, t1)| + |ReactorsOfKind(reacciones, noticia, t2)| +
            |ReactorsOfKind(reacciones, noticia, t3)| + |ReactorsOfKind(reacciones, noticia, t4)|
            == |ReactionsTo(reacciones, noticia)|
  {
    var a := ReactorsOfKind(reacciones, noticia, t1);
    var b := ReactorsOfKind(reacciones, noticia, t2);
    var c := ReactorsOfKind(reacciones, noticia, t3);
    var d := ReactorsOfKind(reacciones, noticia, t4);
    KindsDisjoint(reacciones, noticia, t1, t2);
    KindsDisjoint(reacciones, noticia, t1, t3);
    KindsDisjoint(reacciones, noticia, t2, t3);
    KindsDisjoint(reacciones, noticia, t1, t4);
    KindsDisjoint(reacciones, noticia, t2, t4);
    KindsDisjoint(reacciones, noticia, t3, t4);
    KindsCover(reacciones, noticia, t1, t2, t3, t4);
    FourDisjointSizes(a, b, c, d, ReactionsTo(reacciones, noticia));
  }

  /** The four kind sets lie within the article's reactions, and fill them when no
      other kind is stored. */
  lemma KindsCover(reacciones: ReactionTable, noticia: nat, t1: string, t2: string, t3: string, t4: string)
    ensures ReactorsOfKind(reacciones, noticia, t1) + ReactorsOfKind(reacciones, noticia, t2) +
            ReactorsOfKind(reacciones, noticia, t3) + ReactorsOfKind(reacciones, noticia, t4)
            <= ReactionsTo(reacciones, noticia)
    ensures (forall key :: key in reacciones ==> reacciones[key] in [t1, t2, t3, t4]) ==>
            ReactorsOfKind(reacciones, noticia, t1) + ReactorsOfKind(reacciones, noticia, t2) +
            ReactorsOfKind(reacciones, noticia, t3) + ReactorsOfKind(reacciones, noticia, t4)
            == ReactionsTo(reacciones, noticia)
  {
  }

  /** Sizes of four pairwise disjoint parts of a set. */
  lemma FourDisjointSizes<T>(a: set<T>, b: set<T>, c: set<T>, d: set<T>, all: set<T>)
    requires a !! b && a !! c && a !! d && b !! c && b !! d && c !! d
    requires a + b + c + d <= all
    ensures |a| + |b| + |c| + |d| <= |all|
    ensures a + b + c + d == all ==> |a| + |b| + |c| + |d| == |all|
  {
    DisjointUnionSize(a, b);
    DisjointUnionSize(a + b, c);
    DisjointUnionSize(a + b + c, d);
    SubsetCardinality(a + b + c + d, all);
  }

  /** A user's reaction has one kind, so two kinds have no reactor in common. */
  lemma KindsDisjoint(reacciones: ReactionTable, noticia: nat, t: string, u: string)
    requires t != u
    ensures ReactorsOfKind(reacciones, noticia, t) !! ReactorsOfKind(reacciones, noticia, u)
  {
  }

  lemma DisjointUnionSize<T>(x: set<T>, y: set<T>)
    requires x !! y
    ensures |x + y| == |x| + |y|
  {
  }

  lemma SubsetCardinality<T>(small: set<T>, big: set<T>)
    requires small <= big
    ensures |small| <= |big|
  {
    assert big == small + (big - small);
  }
}
