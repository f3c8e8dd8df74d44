/**
 * The template tables of a dungeon set: the element templates of each kind,
 * the working copies the generator shuffles and draws from, and the object
 * pools keyed by template ID. The engine's list and dictionary types are
 * modelled as classes holding a sequence and a map.
 */
module DungeonSets {

  /** A dungeon element template; only its ID is read here. */
  class Element {
    const id: string

    constructor (id: string)
      ensures this.id == id
    {
      this.id := id;
    }
  }

  /** A spawned game object, kept in a pool; its contents are not read. */
  class GameObject {
    constructor ()
    {
    }
  }

  /** A growable list. */
  class List<T> {
    var items: seq<T>

    constructor ()
      ensures items == []
    {
      items := [];
    }

    method Add(item: T)
      modifies this
      ensures items == old(items) + [item]
    {
      items := items + [item];
    }
  }

  /** A dictionary; assigning to a key adds or overwrites its entry. */
  class Dictionary<K(==), V> {
    var entries: map<K, V>

    constructor ()
      ensures entries == map[]
    {
      entries := map[];
    }

    method Set(key: K, value: V)
      modifies this
      ensures entries == old(entries)[key := value]
    {
      entries := entries[key := value];
    }
  }

  /** The IDs of some templates. */
  function Ids(templates: seq<Element>): set<string> {
    set e | e in templates :: e.id
  }

  /** The IDs of a prefix grow by the ID of the next template. */
  lemma IdsStep(templates: seq<Element>, i: nat)
    requires i < |templates|
    ensures Ids(templates[..i + 1]) == Ids(templates[..i]) + {templates[i].id}
  {
    assert templates[..i + 1] == templates[..i] + [templates[i]];
  }

  /** GetTemplateElements: a new list holding the same elements in the same
      order; the templates themselves are not touched. */
  method GetTemplateElements(templates: List<Element>) returns (elements: List<Element>)
    ensures fresh(elements)
    ensures elements.items == templates.items
  {
    var templatesCount := |templates.items|;
    elements := new List<Element>();
    for i := 0 to templatesCount
      invariant elements.items == templates.items[..i]
    {
      var element := templates.items[i];
      elements.Add(element);
    }
    assert templates.items[..templatesCount] == templates.items;
  }

  /** The pools after InitTemplatePool: every template ID maps to a fresh
      empty list (several templates with one ID leave one such list), and
      every other key keeps its list. */
  ghost predicate PoolsInitialized(pools: map<string, List<GameObject>>, before: map<string, List<GameObject>>,
                                   ids: set<string>)
    reads set k | k in pools :: pools[k]
  {
    && pools.Keys == before.Keys + ids
    && (forall k :: k in ids ==> pools[k].items == [])
    && (forall k :: k in before && k !in ids ==> pools[k] == before[k])
  }

  /** InitTemplatePool: the entry of every template ID becomes a new empty
      list, overwriting what was there. */
  method InitTemplatePool(templates: List<Element>, pools: Dictionary<string, List<GameObject>>)
    modifies pools
    ensures PoolsInitialized(pools.entries, old(pools.entries), Ids(templates.items))
    ensures forall k :: k in Ids(templates.items) ==> fresh(pools.entries[k])
  {
    var templatesCount := |templates.items|;
    for i := 0 to templatesCount
      invariant PoolsInitialized(pools.entries, old(pools.entries), Ids(templates.items[..i]))
      invariant forall k :: k in Ids(templates.items[..i]) ==> fresh(pools.entries[k])
    {
      var element := templates.items[i];
      var pool := new List<GameObject>();
      IdsStep(templates.items, i);
      pools.Set(element.id, pool);
    }
    assert templates.items[..templatesCount] == templates.items;
  }

  /** An asset bundling the templates of one dungeon style. */
  class DungeonSet {
    var setName: string
    var spawnTemplates: List<Element>
    var roomTemplates: List<Element>
    var hallwayTemplates: List<Element>
    var closingTemplates: List<Element>

    var openElements: List?<Element>
    var openTwoWayElements: List?<Element>
    var hallwayElements: List?<Element>
    var closingElements: List?<Element>

    constructor ()
      ensures setName == "" && fresh(spawnTemplates) && fresh(roomTemplates)
      ensures fresh(hallwayTemplates) && fresh(closingTemplates)
      ensures spawnTemplates.items == [] && roomTemplates.items == []
      ensures hallwayTemplates.items == [] && closingTemplates.items == []
      ensures openElements == null && openTwoWayElements == null
      ensures hallwayElements == null && closingElements == null
    {
      setName := "";
      spawnTemplates := new List<Element>();
      roomTemplates := new List<Element>();
      hallwayTemplates := new List<Element>();
      closingTemplates := new List<Element>();
      openElements, openTwoWayElements, hallwayElements, closingElements := null, null, null, null;
    }

    /** InitTemplateElements: four new working lists; the open and two-way
        open lists are separate copies of the room templates, the others
        copy their own templates. The spawn templates are not read. */
    method InitTemplateElements()
      modifies this
      ensures openElements != null && openTwoWayElements != null
      ensures hallwayElements != null && closingElements != null
      ensures fresh(openElements) && fresh(openTwoWayElements) && fresh(hallwayElements) && fresh(closingElements)
      ensures openElements != openTwoWayElements && openElements != hallwayElements && openElements != closingElements
      ensures openTwoWayElements != hallwayElements && openTwoWayElements != closingElements
      ensures hallwayElements != closingElements
      ensures openElements.items == roomTemplates.items && openTwoWayElements.items == roomTemplates.items
      ensures hallwayElements.items == hallwayTemplates.items && closingElements.items == closingTemplates.items
      ensures setName == old(setName) && spawnTemplates == old(spawnTemplates)
      ensures roomTemplates == old(roomTemplates) && hallwayTemplates == old(hallwayTemplates)
      ensures closingTemplates == old(closingTemplates)
    {
      openElements := GetTemplateElements(roomTemplates);
      openTwoWayElements := GetTemplateElements(roomTemplates);
      hallwayElements := GetTemplateElements(hallwayTemplates);
      closingElements := GetTemplateElements(closingTemplates);
    }

    /** GetElementPools: the pools of the room, hallway and closing templates
        are (re)initialised in the given dictionary, which is returned. */
    method GetElementPools(pools: Dictionary<string, List<GameObject>>)
      returns (result: Dictionary<string, List<GameObject>>)
      modifies pools
      ensures result == pools
      ensures PoolsInitialized(pools.entries, old(pools.entries),
                               Ids(roomTemplates.items) + Ids(hallwayTemplates.items) + Ids(closingTemplates.items))
      ensures forall k :: k in Ids(roomTemplates.items) + Ids(hallwayTemplates.items) + Ids(closingTemplates.items)
                ==> fresh(pools.entries[k])
    {
      InitTemplatePool(roomTemplates, pools);
      InitTemplatePool(hallwayTemplates, pools);
      InitTemplatePool(closingTemplates, pools);
      return pools;
    }
  }
}
