/**
 * The in-memory container of the voxelify file format: sprites addressed by integer
 * ids handed out by a counter, and JSON meta objects addressed by name.
 */
module Containers {
  import opened Common
  import opened Sprites

  /**
   * `Keys.ModelKey`, the name of the meta object holding a container's model.
   * `lib/formats/Keys.js` is not part of this model: the name is a stand-in, and nothing
   * proved depends on its value.
   */
  const ModelKey := "model"

  /** The id `addSprite` uses: the given one, or else the counter. */
  function AllocatedId(counter: int, optionalId: Option<int>): int {
    if optionalId.Some? then optionalId.value else counter
  }

  /** The counter after `addSprite`: raised past a given id, or incremented. */
  function NextCounter(counter: int, optionalId: Option<int>): int {
    if optionalId.Some? then Max(optionalId.value + 1, counter) else counter + 1
  }

  function Max(a: int, b: int): int {
    if a < b then b else a
  }

  /** Every sprite id lies below the counter. */
  predicate BelowCounter(ids: set<int>, counter: int) {
    forall k | k in ids :: k < counter
  }

  /**
   * `addSprite` keeps every id below the counter, and an id it allocates from the
   * counter is never one already in use, so only an explicit id can replace a sprite.
   */
  lemma AllocationKeepsBound(ids: set<int>, counter: int, optionalId: Option<int>)
    requires BelowCounter(ids, counter)
    ensures BelowCounter(ids + {AllocatedId(counter, optionalId)}, NextCounter(counter, optionalId))
    ensures optionalId.None? ==> AllocatedId(counter, optionalId) !in ids
    ensures counter <= NextCounter(counter, optionalId)
  {
  }

  /** The `Container` object. */
  class Container {
    var spriteIdCounter: int
    var sprites: map<int, Sprite>
    var metaObjects: map<string, Json>

    /** Every sprite is stored under its own id, and every id lies below the counter. */
    ghost predicate Valid()
      reads this
    {
      BelowCounter(sprites.Keys, spriteIdCounter) && forall k | k in sprites :: sprites[k].id == k
    }

    constructor ()
      ensures spriteIdCounter == 0 && sprites == map[] && metaObjects == map[] && Valid()
    {
      spriteIdCounter := 0;
      sprites := map[];
      metaObjects := map[];
    }

    /**
     * `addSprite`: a new empty sprite under the given id, or under the counter's id;
     * an earlier sprite with that id is replaced.
     */
    method AddSprite(optionalId: Option<int>) returns (sprite: Sprite)
      requires Valid()
      modifies this
      ensures fresh(sprite) && sprite.tiles == map[]
      ensures sprite.id == AllocatedId(old(spriteIdCounter), optionalId)
      ensures spriteIdCounter == NextCounter(old(spriteIdCounter), optionalId)
      ensures sprites == old(sprites)[sprite.id := sprite] && metaObjects == old(metaObjects)
      ensures Valid()
    {
      AllocationKeepsBound(sprites.Keys, spriteIdCounter, optionalId);
      var id;
      if optionalId.Some? {
        id := optionalId.value;
        spriteIdCounter := Max(id + 1, spriteIdCounter);
      } else {
        id := spriteIdCounter;
        spriteIdCounter := spriteIdCounter + 1;
      }
      sprite := new Sprite(id);
      sprites := sprites[id := sprite];
    }

    /** `getSprite`: the sprite with that id, or null. */
    function GetSprite(id: int): (r: Option<Sprite>)
      requires Valid()
      reads this
      ensures r.Some? <==> id in sprites
      ensures r.Some? ==> r.value == sprites[id] && r.value.id == id
    {
      if id in sprites then Some(sprites[id]) else None
    }

    /** `removeSprite`: only that id is dropped. */
    method RemoveSprite(id: int)
      requires Valid()
      modifies this
      ensures sprites == old(sprites) - {id} && id !in sprites
      ensures metaObjects == old(metaObjects) && spriteIdCounter == old(spriteIdCounter)
      ensures Valid()
    {
      sprites := sprites - {id};
    }

    /** `getMetaObject`: the meta object under that key, or null. */
    function GetMetaObject(key: string): (r: Option<Json>)
      reads this
      ensures r.Some? <==> key in metaObjects
      ensures r.Some? ==> r.value == metaObjects[key]
    {
      if key in metaObjects then Some(metaObjects[key]) else None
    }

    /** `setMetaObject`: that key now holds the value; nothing else changes. */
    method SetMetaObject(key: string, value: Json)
      modifies this
      ensures metaObjects == old(metaObjects)[key := value] && GetMetaObject(key) == Some(value)
      ensures sprites == old(sprites) && spriteIdCounter == old(spriteIdCounter)
    {
      metaObjects := metaObjects[key := value];
    }

    /** `removeMetaObject`: only that key is dropped. */
    method RemoveMetaObject(key: string)
      modifies this
      ensures metaObjects == old(metaObjects) - {key} && GetMetaObject(key) == None
      ensures sprites == old(sprites) && spriteIdCounter == old(spriteIdCounter)
    {
      metaObjects := metaObjects - {key};
    }

    /** `clear`: both maps are emptied; the counter keeps counting. */
    method Clear()
      modifies this
      ensures sprites == map[] && metaObjects == map[] && spriteIdCounter == old(spriteIdCounter)
      ensures Valid()
    {
      metaObjects := map[];
      sprites := map[];
    }
  }
}
