/**
 * The `spriteId` validator of the container format: every `spriteId` found at any depth
 * of the model meta object must name a sprite of the container, and every sprite of the
 * container must be named by one of them.
 */
module SpriteIdValidation {
  import opened Common
  import opened Containers

  /**
   * What the validator does: return normally, or throw because the model is absent,
   * because a referenced sprite is missing, or because a sprite is not referenced.
   */
  datatype Verdict = Accepted | NoModel | MissingSprite(ref: Json) | UnnecessarySprite(id: int)

  /** The name the validator looks for. */
  const IdKey := "spriteId"

  /**
   * The JSONPath query `$..spriteId`: at an object, its own `spriteId` member first, then
   * the matches inside each member value in member order; at an array, the matches
   * inside each item in order; nothing elsewhere.
   */
  function Collect(j: Json): seq<Json>
    decreases j, 1
  {
    match j
    case JObj(_) => (var own := Member(j, IdKey); if own.Some? then [own.value] else []) + CollectFrom(j, 0)
    case JArr(_) => CollectFrom(j, 0)
    case _ => []
  }

  /** The matches inside the members (or items) of `j` from position `k` on. */
  function CollectFrom(j: Json, k: nat): seq<Json>
    requires j.JObj? || j.JArr?
    requires k <= Count(j)
    decreases j, 0, Count(j) - k
  {
    if k == Count(j) then []
    else if j.JObj? then
      assert j.members[k] in j.members;
      Collect(j.members[k].1) + CollectFrom(j, k + 1)
    else
      Collect(j.items[k]) + CollectFrom(j, k + 1)
  }

  /** The number of members or items. */
  function Count(j: Json): nat
    requires j.JObj? || j.JArr?
  {
    if j.JObj? then |j.members| else |j.items|
  }

  /** The k-th member value or item. */
  function Child(j: Json, k: nat): Json
    requires j.JObj? || j.JArr?
    requires k < Count(j)
  {
    if j.JObj? then j.members[k].1 else j.items[k]
  }

  /** A child's matches are among the matches from any position up to the child's. */
  lemma {:induction false} ChildContained(j: Json, from: nat, k: nat)
    requires j.JObj? || j.JArr?
    requires from <= k < Count(j)
    ensures forall r | r in Collect(Child(j, k)) :: r in CollectFrom(j, from)
    decreases k - from
  {
    if from < k {
      ChildContained(j, from + 1, k);
    }
  }

  /**
   * The search reaches every depth: an object's own `spriteId` is found, and so is every
   * match inside any of its members or items.
   */
  lemma Nested(j: Json, k: int)
    ensures j.JObj? && Member(j, IdKey).Some? ==> Collect(j)[0] == Member(j, IdKey).value
    ensures j.JObj? && 0 <= k < |j.members| ==> forall r | r in Collect(j.members[k].1) :: r in Collect(j)
    ensures j.JArr? && 0 <= k < |j.items| ==> forall r | r in Collect(j.items[k]) :: r in Collect(j)
  {
    if (j.JObj? || j.JArr?) && 0 <= k < Count(j) {
      ChildContained(j, 0, k);
    }
  }

  /** `format.getSprite(ref) !== null`: the reference is a number equal to a sprite id. */
  predicate Present(ref: Json, ids: set<int>) {
    ref.JNum? && ref.n == ref.n.Floor as real && ref.n.Floor in ids
  }

  /** `spriteIds.indexOf(id) !== -1`: some reference is that very number. */
  predicate Referenced(id: int, refs: seq<Json>) {
    JNum(id as real) in refs
  }

  /** The first reference that names no sprite, as the first loop throws for it. */
  function FirstMissing(refs: seq<Json>, ids: set<int>): (r: Option<Json>)
    ensures r.None? <==> forall i | 0 <= i < |refs| :: Present(refs[i], ids)
    ensures r.Some? ==> exists i | 0 <= i < |refs| ::
      refs[i] == r.value && !Present(refs[i], ids) && forall k | 0 <= k < i :: Present(refs[k], ids)
  {
    if refs == [] then None
    else if !Present(refs[0], ids) then Some(refs[0])
    else
      var r := FirstMissing(refs[1..], ids);
      assert forall i | 1 <= i < |refs| :: refs[i] == refs[1..][i - 1];
      r
  }

  /** The first sprite, in visiting order, that no reference names, as the second loop throws for it. */
  function FirstUnnecessary(order: seq<int>, refs: seq<Json>): (r: Option<int>)
    ensures r.None? <==> forall i | 0 <= i < |order| :: Referenced(order[i], refs)
    ensures r.Some? ==> exists i | 0 <= i < |order| ::
      order[i] == r.value && !Referenced(order[i], refs) && forall k | 0 <= k < i :: Referenced(order[k], refs)
  {
    if order == [] then None
    else if !Referenced(order[0], refs) then Some(order[0])
    else
      var r := FirstUnnecessary(order[1..], refs);
      assert forall i | 1 <= i < |order| :: order[i] == order[1..][i - 1];
      r
  }

  /**
   * `validator` on the model meta object (`None` when the container has none) and the
   * sprite ids in the order `forEachSprite` visits them. A model that is absent or falsy
   * makes the JSONPath query throw.
   */
  function Validate(model: Option<Json>, order: seq<int>): Verdict {
    if model.None? || !Truthy(model.value) then NoModel
    else
      var refs := Collect(model.value);
      var missing := FirstMissing(refs, set id | id in order);
      if missing.Some? then MissingSprite(missing.value)
      else
        var unnecessary := FirstUnnecessary(order, refs);
        if unnecessary.Some? then UnnecessarySprite(unnecessary.value) else Accepted
  }

  /** `validator(format)` on a container whose sprites are visited in `order`. */
  function Validator(container: Container, order: seq<int>): (v: Verdict)
    requires forall id :: id in container.sprites <==> id in order
    reads container
    ensures v == Validate(container.GetMetaObject(ModelKey), order)
  {
    assert forall id :: id in (set id | id in order) <==> id in container.sprites;
    Validate(container.GetMetaObject(ModelKey), order)
  }

  /**
   * The validator accepts exactly when there is a model, every reference names a
   * sprite and every sprite is referenced; a refusal names a reference that names no
   * sprite, or else a sprite that no reference names.
   */
  lemma AcceptedExactly(model: Option<Json>, order: seq<int>)
    ensures Validate(model, order) == Accepted <==>
      model.Some? && Truthy(model.value)
      && (forall r | r in Collect(model.value) :: Present(r, set id | id in order))
      && (forall id | id in order :: Referenced(id, Collect(model.value)))
    ensures Validate(model, order).MissingSprite? ==>
      Validate(model, order).ref in Collect(model.value)
      && !Present(Validate(model, order).ref, set id | id in order)
    ensures Validate(model, order).UnnecessarySprite? ==>
      Validate(model, order).id in order
      && !Referenced(Validate(model, order).id, Collect(model.value))
      && forall r | r in Collect(model.value) :: Present(r, set id | id in order)
  {
    if model.Some? && Truthy(model.value) {
      var refs := Collect(model.value);
      var ids := set id | id in order;
      assert (forall r | r in refs :: Present(r, ids)) <==> (forall i | 0 <= i < |refs| :: Present(refs[i], ids));
      assert (forall id | id in order :: Referenced(id, refs))
        <==> (forall i | 0 <= i < |order| :: Referenced(order[i], refs));
    }
  }

  /** The integer sprite ids the references name. */
  function RefIds(refs: seq<Json>): set<int> {
    set r | r in refs && r.JNum? && r.n == r.n.Floor as real :: r.n.Floor
  }

  /**
   * When every reference is an integer, the validator accepts exactly when the
   * referenced ids are the container's sprite ids.
   */
  lemma SameIds(model: Json, order: seq<int>)
    requires Truthy(model)
    requires forall r | r in Collect(model) :: r.JNum? && r.n == r.n.Floor as real
    ensures Validate(Some(model), order) == Accepted <==> RefIds(Collect(model)) == set id | id in order
  {
    var refs, ids := Collect(model), set id | id in order;
    AcceptedExactly(Some(model), order);
    if RefIds(refs) == ids {
      forall id | id in order
        ensures Referenced(id, refs)
      {
        assert id in RefIds(refs);
        var r :| r in refs && r.JNum? && r.n == r.n.Floor as real && r.n.Floor == id;
        assert r == JNum(id as real);
      }
    }
    if Validate(Some(model), order) == Accepted {
      forall id | id in ids
        ensures id in RefIds(refs)
      {
        assert JNum(id as real) in refs;
        assert (id as real).Floor == id;
      }
    }
  }

  /** A model naming sprite 0 at the top and one level down, in a container holding sprite 0, is accepted. */
  lemma AcceptsNestedReferences()
    ensures Validate(Some(JObj([(IdKey, JNum(0.0)), ("xxx", JObj([(IdKey, JNum(0.0))]))])), [0]) == Accepted
  {
    var inner := JObj([(IdKey, JNum(0.0))]);
    var model := JObj([(IdKey, JNum(0.0)), ("xxx", inner)]);
    assert CollectFrom(inner, 0) == [] by {
      assert Collect(JNum(0.0)) == [] && CollectFrom(inner, 1) == [];
    }
    assert Collect(inner) == [JNum(0.0)];
    assert CollectFrom(model, 1) == [JNum(0.0)] by {
      assert CollectFrom(model, 2) == [];
    }
    assert CollectFrom(model, 0) == [JNum(0.0)];
    assert Collect(model) == [JNum(0.0), JNum(0.0)];
    assert (0.0).Floor == 0;
  }

  /** A reference to sprite 123 in an empty container is reported missing. */
  lemma RefusesMissingSprite()
    ensures Validate(Some(JObj([(IdKey, JNum(123.0))])), []) == MissingSprite(JNum(123.0))
  {
    var model := JObj([(IdKey, JNum(123.0))]);
    assert CollectFrom(model, 0) == [] by {
      assert CollectFrom(model, 1) == [];
    }
    assert Collect(model) == [JNum(123.0)];
  }

  /** A sprite in a container without a model makes the validator throw. */
  lemma RefusesWithoutModel(id: int)
    ensures Validate(None, [id]) == NoModel
  {
  }
}
