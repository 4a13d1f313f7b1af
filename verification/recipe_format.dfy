/**
 * `RecipeFormatter`: converts a parsed recipe between the three shapes the
 * game has used — the oldest shape (ingredients as `{item?, tag?}` objects,
 * result `{item, count?}`), the middle shape from 24w10a (result `{id, count}`)
 * and the newest shape from 24w33a (ingredients as plain strings, a tag written
 * as "#" followed by its name). Every conversion pivots through the newest shape.
 *
 * JavaScript truthiness is modelled exactly where the converters test a field:
 * an empty string counts as absent.
 */
module RecipeFormat {
  import opened Seqs
  import opened Wrappers
  import opened Strings
  import opened Versions

  /** A JSON value, for the fields the converters carry along untouched. */
  datatype Json = JNull | JBool(b: bool) | JNum(n: int) | JStr(s: string) | JArr(items: seq<Json>) | JObj(fields: map<string, Json>)

  /** An ingredient is either a string or an object with an optional item and an optional tag. */
  datatype Ingredient = Ref(name: string) | Obj(item: Option<string>, tag: Option<string>)

  /** A recipe result: `item` (oldest shape), `id` (newer shapes), `count`, and any other fields. */
  datatype RecipeResult = RecipeResult(item: Option<string>, id: Option<string>, count: Option<Json>, extra: map<string, Json>)

  /** A parsed recipe of any shape; `rest` holds every field other than the four the converters rewrite. */
  datatype Recipe = Recipe(
    key: Option<map<string, Ingredient>>,
    ingredients: Option<seq<Ingredient>>,
    ingredient: Option<Ingredient>,
    result: Option<RecipeResult>,
    rest: map<string, Json>)

  /** The newest shape, as `toMore24w33a` builds it: every ingredient is a string and a result is always set. */
  datatype MoreRecipe = MoreRecipe(
    key: Option<map<string, string>>,
    ingredients: Option<seq<string>>,
    ingredient: Option<string>,
    result: RecipeResult,
    rest: map<string, Json>)

  datatype RecipeError =
    /** `recipe.result.item` on a recipe without a result throws a TypeError. */
    | ResultMissing
    /** The content is not a JSON recipe. */
    | Unparsable

  /** The datapack versions at which the shapes change. */
  const MoreThreshold: int := 49
  const BetweenThreshold: int := 34

  /** JavaScript truthiness of an optional string field: absent and "" are both falsy. */
  predicate Present(s: Option<string>) {
    s.Some? && s.value != ""
  }

  /** JavaScript truthiness of an ingredient: only the empty string is falsy. */
  predicate IngredientTruthy(i: Ingredient) {
    i != Ref("")
  }

  /** The newest shape as a recipe value (for the converters that accept any shape). */
  function FromMore(m: MoreRecipe): Recipe {
    Recipe(
      if m.key.Some? then Some(map k | k in m.key.value :: Ref(m.key.value[k])) else None,
      if m.ingredients.Some? then Some(Refs(m.ingredients.value)) else None,
      if m.ingredient.Some? then Some(Ref(m.ingredient.value)) else None,
      Some(m.result),
      m.rest)
  }

  function Refs(list: seq<string>): seq<Ingredient> {
    seq(|list|, i requires 0 <= i < |list| => Ref(list[i]))
  }

  // ---------------------------------------------------------------------------
  // preprocess

  /**
   * `preprocess`: a copy of the recipe with key, ingredients, ingredient and
   * result deleted when truthy. Of the values this model admits only the
   * ingredient "" is falsy, so it is the one field that can survive.
   */
  function Preprocess(recipe: Recipe): (data: Recipe)
    ensures data.rest == recipe.rest
    ensures data.key.None? && data.ingredients.None? && data.result.None?
    ensures data.ingredient.Some? <==> recipe.ingredient.Some? && !IngredientTruthy(recipe.ingredient.value)
    ensures data.ingredient.Some? ==> data.ingredient == recipe.ingredient
  {
    Recipe(None, None, if recipe.ingredient == Some(Ref("")) then recipe.ingredient else None, None, recipe.rest)
  }

  // ---------------------------------------------------------------------------
  // toMore24w33a

  /** The string a key slot or the single ingredient becomes: the string itself, "#"+tag (tag beats item), or item; none when neither is truthy. */
  function MoreSlot(v: Ingredient): Option<string> {
    match v
    case Ref(s) => Some(s)
    case Obj(item, tag) =>
      if Present(tag) then Some("#" + tag.value)
      else if Present(item) then Some(item.value)
      else None
  }

  /** The strings one entry of `ingredients` becomes: the string itself, or item then "#"+tag for each that is truthy. */
  function MoreEntries(v: Ingredient): seq<string> {
    match v
    case Ref(s) => [s]
    case Obj(item, tag) =>
      (if Present(item) then [item.value] else []) + (if Present(tag) then ["#" + tag.value] else [])
  }

  function MoreKey(key: map<string, Ingredient>): map<string, string> {
    map k | k in key && MoreSlot(key[k]).Some? :: MoreSlot(key[k]).value
  }

  function MoreIngredients(list: seq<Ingredient>): seq<string> {
    if list == [] then []
    else MoreIngredients(list[..|list| - 1]) + MoreEntries(list[|list| - 1])
  }

  /** `(count ?? 1)`: an absent or null count becomes 1. */
  function CountOrOne(count: Option<Json>): Json {
    if count.None? || count == Some(JNull) then JNum(1) else count.value
  }

  /** The result of the newest shape: `{id: item, count: count ?? 1}` when item is truthy, otherwise passed through. */
  function MoreResult(res: RecipeResult): RecipeResult {
    if Present(res.item) then RecipeResult(None, res.item, Some(CountOrOne(res.count)), map[]) else res
  }

  /** `toMore24w33a` as a function of the recipe. */
  function More(recipe: Recipe): (r: Result<MoreRecipe, RecipeError>)
    ensures r.Failure? <==> recipe.result.None?
    ensures r.Success? ==>
      && r.value.rest == recipe.rest
      && (r.value.key.Some? <==> recipe.key.Some?)
      && (r.value.ingredients.Some? <==> recipe.ingredients.Some?)
  {
    if recipe.result.None? then Failure(ResultMissing)
    else
      var ingredient :=
        match recipe.ingredient
        case None => None
        // a falsy ingredient is not converted; preprocess kept it
        case Some(i) => if IngredientTruthy(i) then MoreSlot(i) else Some("");
      Success(MoreRecipe(
        if recipe.key.Some? then Some(MoreKey(recipe.key.value)) else None,
        if recipe.ingredients.Some? then Some(MoreIngredients(recipe.ingredients.value)) else None,
        ingredient,
        MoreResult(recipe.result.value),
        Preprocess(recipe).rest))
  }

  /** The key loop of `toMore24w33a`: visits every slot once, in any order. */
  method MoreKeyLoop(key: map<string, Ingredient>) returns (out: map<string, string>)
    ensures out == MoreKey(key)
  {
    out := map[];
    var todo := key.Keys;
    while todo != {}
      invariant todo <= key.Keys
      invariant forall k :: k in out <==> k in key && k !in todo && MoreSlot(key[k]).Some?
      invariant forall k :: k in out ==> k in key && out[k] == MoreSlot(key[k]).value
      decreases todo
    {
      var k :| k in todo;
      match key[k] {
        case Ref(s) =>
          out := out[k := s];
        case Obj(item, tag) =>
          if Present(item) {
            out := out[k := item.value];
          }
          if Present(tag) {
            out := out[k := "#" + tag.value];
          }
      }
      todo := todo - {k};
    }
  }

  /** The ingredients loop of `toMore24w33a`: pushes each entry's strings in order. */
  method MoreIngredientsLoop(list: seq<Ingredient>) returns (out: seq<string>)
    ensures out == MoreIngredients(list)
  {
    out := [];
    for i := 0 to |list|
      invariant out == MoreIngredients(list[..i])
    {
      match list[i] {
        case Ref(s) =>
          out := out + [s];
        case Obj(item, tag) =>
          if Present(item) {
            out := out + [item.value];
          }
          if Present(tag) {
            out := out + ["#" + tag.value];
          }
      }
      assert list[..i + 1][..i] == list[..i];
    }
    assert list[..|list|] == list;
  }

  /** `toMore24w33a`. */
  method ToMore24w33a(recipe: Recipe) returns (r: Result<MoreRecipe, RecipeError>)
    ensures r == More(recipe)
  {
    var data := Preprocess(recipe);
    var key: Option<map<string, string>> := None;
    if recipe.key.Some? {
      var converted := MoreKeyLoop(recipe.key.value);
      key := Some(converted);
    }
    var ingredients: Option<seq<string>> := None;
    if recipe.ingredients.Some? {
      var converted := MoreIngredientsLoop(recipe.ingredients.value);
      ingredients := Some(converted);
    }
    var ingredient: Option<string> := if data.ingredient.Some? then Some("") else None;
    if recipe.ingredient.Some? && IngredientTruthy(recipe.ingredient.value) {
      ingredient := MoreSlot(recipe.ingredient.value);
    }
    if recipe.result.None? {
      return Failure(ResultMissing);
    }
    r := Success(MoreRecipe(key, ingredients, ingredient, MoreResult(recipe.result.value), data.rest));
  }

  // ---------------------------------------------------------------------------
  // toBetween24w10aTo24w33a

  /** A newest-shape string as a middle-shape object: "#name" is the tag `name`, anything else an item. */
  function BetweenIngredient(s: string): Ingredient {
    if StartsWith(s, "#") then Obj(None, Some(s[1..])) else Obj(Some(s), None)
  }

  function BetweenKey(key: map<string, string>): map<string, Ingredient> {
    map k | k in key :: BetweenIngredient(key[k])
  }

  function BetweenIngredients(list: seq<string>): seq<Ingredient> {
    if list == [] then [] else BetweenIngredients(list[..|list| - 1]) + [BetweenIngredient(list[|list| - 1])]
  }

  /** `toBetween24w10aTo24w33a` as a function of the recipe. */
  function Between(recipe: Recipe): (r: Result<Recipe, RecipeError>)
    ensures r.Failure? <==> recipe.result.None?
    ensures r.Success? ==> r.value.rest == recipe.rest && r.value.result == Some(More(recipe).value.result)
  {
    var more :- More(recipe);
    var data := Preprocess(recipe);
    Success(Recipe(
      if more.key.Some? then Some(BetweenKey(more.key.value)) else data.key,
      if more.ingredients.Some? then Some(BetweenIngredients(more.ingredients.value)) else data.ingredients,
      if Present(more.ingredient) then Some(BetweenIngredient(more.ingredient.value)) else data.ingredient,
      Some(more.result),
      data.rest))
  }

  /** The key loop of `toBetween24w10aTo24w33a`. */
  method BetweenKeyLoop(key: map<string, string>) returns (out: map<string, Ingredient>)
    ensures out == BetweenKey(key)
  {
    out := map[];
    var todo := key.Keys;
    while todo != {}
      invariant todo <= key.Keys
      invariant forall k :: k in out <==> k in key && k !in todo
      invariant forall k :: k in out ==> k in key && out[k] == BetweenIngredient(key[k])
      decreases todo
    {
      var k :| k in todo;
      var value := key[k];
      if StartsWith(value, "#") {
        out := out[k := Obj(None, Some(value[1..]))];
      } else {
        out := out[k := Obj(Some(value), None)];
      }
      todo := todo - {k};
    }
  }

  /** The ingredients loop of `toBetween24w10aTo24w33a`. */
  method BetweenIngredientsLoop(list: seq<string>) returns (out: seq<Ingredient>)
    ensures out == BetweenIngredients(list)
  {
    out := [];
    for i := 0 to |list|
      invariant out == BetweenIngredients(list[..i])
    {
      if StartsWith(list[i], "#") {
        out := out + [Obj(None, Some(list[i][1..]))];
      } else {
        out := out + [Obj(Some(list[i]), None)];
      }
      assert list[..i + 1][..i] == list[..i];
    }
    assert list[..|list|] == list;
  }

  /** `toBetween24w10aTo24w33a`. */
  method ToBetween24w10aTo24w33a(recipe: Recipe) returns (r: Result<Recipe, RecipeError>)
    ensures r == Between(recipe)
  {
    var converted := ToMore24w33a(recipe);
    if converted.Failure? {
      return Failure(converted.error);
    }
    var more := converted.value;
    var data := Preprocess(recipe);
    var key := data.key;
    if more.key.Some? {
      var k := BetweenKeyLoop(more.key.value);
      key := Some(k);
    }
    var ingredients := data.ingredients;
    if more.ingredients.Some? {
      var l := BetweenIngredientsLoop(more.ingredients.value);
      ingredients := Some(l);
    }
    var ingredient := data.ingredient;
    if Present(more.ingredient) {
      ingredient := Some(BetweenIngredient(more.ingredient.value));
    }
    r := Success(Recipe(key, ingredients, ingredient, Some(more.result), data.rest));
  }

  // ---------------------------------------------------------------------------
  // toLess24w10a

  /** `toLess24w10a`: the middle shape's ingredients, with the result rewritten as `{item: id, count}`. */
  function Less(recipe: Recipe): (r: Result<Recipe, RecipeError>)
    ensures r.Failure? <==> recipe.result.None?
    ensures r.Success? ==>
      && r.value.rest == recipe.rest
      && r.value.result == Some(RecipeResult(More(recipe).value.result.id, None, More(recipe).value.result.count, map[]))
  {
    var between :- Between(recipe);
    var data := Preprocess(recipe);
    Success(Recipe(
      if between.key.Some? then between.key else data.key,
      if between.ingredients.Some? then between.ingredients else data.ingredients,
      if between.ingredient.Some? && IngredientTruthy(between.ingredient.value) then between.ingredient else data.ingredient,
      if between.result.Some? then Some(RecipeResult(between.result.value.id, None, between.result.value.count, map[])) else data.result,
      data.rest))
  }

  // ---------------------------------------------------------------------------
  // Shapes

  /** A middle-shape ingredient object: exactly one of item and tag is set. */
  predicate ObjShaped(i: Ingredient) {
    i.Obj? && (i.item.Some? != i.tag.Some?)
  }

  /** The middle shape: object ingredients (a falsy "" single ingredient is kept as is) and an `{id, count}`-style result. */
  predicate BetweenShaped(r: Recipe) {
    && (r.key.Some? ==> forall k :: k in r.key.value ==> ObjShaped(r.key.value[k]))
    && (r.ingredients.Some? ==> forall i :: 0 <= i < |r.ingredients.value| ==> ObjShaped(r.ingredients.value[i]))
    && (r.ingredient.Some? ==> ObjShaped(r.ingredient.value) || r.ingredient.value == Ref(""))
    && r.result.Some? && !Present(r.result.value.item)
  }

  /** The oldest shape: the middle shape's ingredients, and a result that names its item, not an id. */
  predicate LessShaped(r: Recipe) {
    && (r.key.Some? ==> forall k :: k in r.key.value ==> ObjShaped(r.key.value[k]))
    && (r.ingredients.Some? ==> forall i :: 0 <= i < |r.ingredients.value| ==> ObjShaped(r.ingredients.value[i]))
    && (r.ingredient.Some? ==> ObjShaped(r.ingredient.value) || r.ingredient.value == Ref(""))
    && r.result.Some? && r.result.value.id.None? && r.result.value.extra == map[]
  }

  /** The newest shape's result never holds a truthy `item`. */
  lemma MoreResultHasNoItem(recipe: Recipe)
    requires More(recipe).Success?
    ensures !Present(More(recipe).value.result.item)
  {
  }

  lemma {:induction false} BetweenIngredientsShape(list: seq<string>)
    ensures |BetweenIngredients(list)| == |list|
    ensures forall i :: 0 <= i < |list| ==> BetweenIngredients(list)[i] == BetweenIngredient(list[i])
  {
    if list != [] {
      BetweenIngredientsShape(list[..|list| - 1]);
    }
  }

  /** `toBetween24w10aTo24w33a` produces the middle shape. */
  lemma BetweenIsBetweenShaped(recipe: Recipe)
    requires Between(recipe).Success?
    ensures BetweenShaped(Between(recipe).value)
  {
    var more := More(recipe).value;
    if more.ingredients.Some? {
      BetweenIngredientsShape(more.ingredients.value);
    }
  }

  /** `toLess24w10a` produces the oldest shape. */
  lemma LessIsLessShaped(recipe: Recipe)
    requires Less(recipe).Success?
    ensures LessShaped(Less(recipe).value)
  {
    BetweenIsBetweenShaped(recipe);
  }

  /** `toLess24w10a` fails exactly when `toMore24w33a` does: on a recipe without a result. */
  lemma ConvertersFailTogether(recipe: Recipe)
    ensures More(recipe).Failure? <==> recipe.result.None?
    ensures Between(recipe).Failure? <==> recipe.result.None?
    ensures Less(recipe).Failure? <==> recipe.result.None?
  {
  }

  // ---------------------------------------------------------------------------
  // Round trips through the newest shape

  /** The newest shape is a fixed point of `toMore24w33a` (its result never holds a truthy item). */
  lemma {:induction false} MoreOfMore(m: MoreRecipe)
    requires !Present(m.result.item)
    ensures More(FromMore(m)) == Success(m)
  {
    var r := FromMore(m);
    if m.key.Some? {
      assert MoreKey(r.key.value) == m.key.value;
    }
    if m.ingredients.Some? {
      MoreIngredientsOfRefs(m.ingredients.value);
    }
  }

  lemma {:induction false} MoreIngredientsOfRefs(list: seq<string>)
    ensures MoreIngredients(Refs(list)) == list
  {
    var refs := Refs(list);
    if list != [] {
      var init := list[..|list| - 1];
      assert refs[..|refs| - 1] == Refs(init);
      MoreIngredientsOfRefs(init);
      assert init + [list[|list| - 1]] == list;
    }
  }

  /** `toMore24w33a` is idempotent. */
  lemma MoreIdempotent(recipe: Recipe)
    requires More(recipe).Success?
    ensures More(FromMore(More(recipe).value)) == More(recipe)
  {
    MoreOfMore(More(recipe).value);
  }

  /** A newest-shape string survives a trip through the middle shape unless it is "" or "#". */
  predicate Reversible(s: string) {
    s != "" && s != "#"
  }

  /** Every string the newest shape holds in key and ingredients, and a truthy single ingredient, is reversible. */
  predicate ReversibleMore(m: MoreRecipe) {
    && (m.key.Some? ==> forall k :: k in m.key.value ==> Reversible(m.key.value[k]))
    && (m.ingredients.Some? ==> forall i :: 0 <= i < |m.ingredients.value| ==> Reversible(m.ingredients.value[i]))
    && (m.ingredient.Some? && m.ingredient.value != "" ==> Reversible(m.ingredient.value))
  }

  /** A reversible string comes back from the middle shape unchanged. */
  lemma SlotRoundTrip(s: string)
    requires Reversible(s)
    ensures MoreSlot(BetweenIngredient(s)) == Some(s)
    ensures MoreEntries(BetweenIngredient(s)) == [s]
  {
    if StartsWith(s, "#") {
      assert "#" + s[1..] == s;
    }
  }

  lemma {:induction false} IngredientsRoundTrip(list: seq<string>)
    requires forall i :: 0 <= i < |list| ==> Reversible(list[i])
    ensures MoreIngredients(BetweenIngredients(list)) == list
  {
    if list != [] {
      var init := list[..|list| - 1];
      IngredientsRoundTrip(init);
      SlotRoundTrip(list[|list| - 1]);
      DropLast(BetweenIngredients(init), BetweenIngredient(list[|list| - 1]));
      InitLast(list);
    }
  }

  /** The key map survives a trip through the middle shape when each of its strings is reversible. */
  lemma KeyRoundTrip(key: map<string, string>)
    requires forall k :: k in key ==> Reversible(key[k])
    ensures MoreKey(BetweenKey(key)) == key
  {
    forall k | k in key
      ensures MoreSlot(BetweenKey(key)[k]) == Some(key[k])
    {
      SlotRoundTrip(key[k]);
    }
  }

  /** `toMore24w33a(toBetween24w10aTo24w33a(r)) == toMore24w33a(r)` when every converted string is reversible. */
  lemma MoreAfterBetween(recipe: Recipe)
    requires More(recipe).Success? && ReversibleMore(More(recipe).value)
    ensures Between(recipe).Success? && More(Between(recipe).value) == More(recipe)
  {
    var more := More(recipe).value;
    var between := Between(recipe).value;
    if more.key.Some? {
      KeyRoundTrip(more.key.value);
    }
    if more.ingredients.Some? {
      IngredientsRoundTrip(more.ingredients.value);
    }
    if Present(more.ingredient) {
      SlotRoundTrip(more.ingredient.value);
    }
  }

  /** The round trip above needs its precondition: an empty key string is lost on the way through the middle shape. */
  lemma EmptyKeyStringIsLost()
    ensures var recipe := Recipe(Some(map["A" := Ref("")]), None, None, Some(RecipeResult(None, Some("stone"), Some(JNum(1)), map[])), map[]);
      && More(recipe).Success? && More(recipe).value.key == Some(map["A" := ""])
      && Between(recipe).Success? && More(Between(recipe).value).Success?
      && More(Between(recipe).value).value.key == Some(map[])
  {
    var recipe := Recipe(Some(map["A" := Ref("")]), None, None, Some(RecipeResult(None, Some("stone"), Some(JNum(1)), map[])), map[]);
    assert MoreKey(recipe.key.value) == map["A" := ""];
    assert !StartsWith("", "#");
    assert BetweenKey(map["A" := ""]) == map["A" := Obj(Some(""), None)];
    assert MoreKey(map["A" := Obj(Some(""), None)]) == map[];
  }

  /**
   * Converting to the oldest shape and back to the newest is lossless for a
   * recipe whose newest-shape strings are reversible and whose result is a
   * plain `{id, count}` with a truthy id and a non-null count.
   */
  lemma MoreAfterLess(recipe: Recipe)
    requires More(recipe).Success? && ReversibleMore(More(recipe).value)
    requires var res := More(recipe).value.result;
      Present(res.id) && res.item.None? && res.count.Some? && res.count != Some(JNull) && res.extra == map[]
    ensures Less(recipe).Success? && More(Less(recipe).value) == More(recipe)
  {
    MoreAfterBetween(recipe);
    var between := Between(recipe).value;
    var less := Less(recipe).value;
    assert less.key == between.key && less.ingredients == between.ingredients;
    assert less.ingredient == between.ingredient;
    assert less.rest == between.rest;
  }

  // ---------------------------------------------------------------------------
  // format

  /** The shape a recipe is written in for a datapack version: newest from 49, middle from 34, oldest below. */
  function Convert(recipe: Recipe, formats: Formats): (r: Result<Recipe, RecipeError>)
    ensures r.Failure? <==> recipe.result.None?
    ensures r.Success? && formats.datapack >= MoreThreshold ==> r.value == FromMore(More(recipe).value)
    ensures r.Success? && BetweenThreshold <= formats.datapack < MoreThreshold ==> BetweenShaped(r.value)
    ensures r.Success? && formats.datapack < BetweenThreshold ==> LessShaped(r.value)
    ensures BetweenThreshold <= formats.datapack < MoreThreshold ==> r == Between(recipe)
    ensures formats.datapack < BetweenThreshold ==> r == Less(recipe)
  {
    if formats.datapack >= MoreThreshold then
      var m :- More(recipe);
      Success(FromMore(m))
    else if formats.datapack >= BetweenThreshold then
      if recipe.result.Some? then BetweenIsBetweenShaped(recipe); Between(recipe)
      else Between(recipe)
    else
      if recipe.result.Some? then LessIsLessShaped(recipe); Less(recipe)
      else Less(recipe)
  }

  /** Decoding (base64 then JSON) and encoding (JSON then base64), which the model takes as given. */
  datatype Codec = Codec(decode: string -> Option<Recipe>, encode: Recipe -> string)

  /** `RecipeFormatter.format`: decode, convert for the datapack version, encode. */
  function Format(content: string, formats: Formats, codec: Codec): (r: Result<string, RecipeError>)
    ensures codec.decode(content).None? ==> r == Failure(Unparsable)
    ensures codec.decode(content).Some? ==> (r.Success? <==> codec.decode(content).value.result.Some?)
    ensures r.Success? ==> exists rec :: Convert(codec.decode(content).value, formats) == Success(rec) && r.value == codec.encode(rec)
  {
    match codec.decode(content)
    case None => Failure(Unparsable)
    case Some(recipe) =>
      var converted :- Convert(recipe, formats);
      Success(codec.encode(converted))
  }
}
