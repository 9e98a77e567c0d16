/**
  * ExceptionGroup: a typed group of exception items (excluded names, blacklisted
  * paths, ...) with a small key/value settings map, saved to and loaded from
  * one group of the persistent settings store.
  */
module ExceptionGroups {
  import opened Options
  import opened StringLists

  /** A settings group: key to (string-converted) value. */
  type Group = map<string, string>

  /** The persistent settings store, one key/value group per group name. */
  class Settings {
    var store: map<string, Group>

    constructor(store0: map<string, Group>)
      ensures store == store0
    {
      store := store0;
    }

    /** The keys and values of a group; a group never written is empty. */
    function GroupOf(name: string): (g: Group)
      reads this
      ensures name !in store ==> g == map[]
    {
      if name in store then store[name] else map[]
    }

    /** beginGroup(name) followed by remove(""): every key of the group is dropped. */
    method Clear(name: string)
      modifies this
      ensures store == old(store)[name := map[]]
    {
      store := store[name := map[]];
    }

    /** setValue inside group name. */
    method SetValue(name: string, key: string, value: string)
      modifies this
      ensures store == old(store)[name := old(GroupOf(name))[key := value]]
    {
      store := store[name := GroupOf(name)[key := value]];
    }
  }

  /** value("type").toString(): the group the settings are stored under ("" when unset). */
  function GroupName(settingsMap: map<string, string>): (name: string)
    ensures "type" in settingsMap ==> name == settingsMap["type"]
    ensures "type" !in settingsMap ==> name == ""
  {
    if "type" in settingsMap then settingsMap["type"] else ""
  }

  /** What save writes into the group: every setting, then "data" as the joined item list. */
  function SavedGroup(settingsMap: map<string, string>, data: seq<string>): (g: Group)
    ensures g.Keys == settingsMap.Keys + {"data"}
    ensures g["data"] == Join(data)
    ensures forall k :: k in settingsMap && k != "data" ==> g[k] == settingsMap[k]
  {
    settingsMap["data" := Join(data)]
  }

  /** The items a stored "data" value yields: none for the empty string, else its split parts. */
  function LoadedItems(stored: string): (items: seq<string>)
    ensures stored == "" ==> items == []
    ensures stored != "" ==> Join(items) == stored
  {
    if stored == "" then [] else JoinSplit(stored); Split(stored)
  }

  /** The items saved by save are the items load gets back, except a list of one empty item. */
  lemma ItemsRoundTrip(data: seq<string>)
    requires forall i :: 0 <= i < |data| ==> Sep !in data[i]
    requires data != [""]
    ensures LoadedItems(Join(data)) == data
  {
    JoinEmpty(data);
    if data != [] {
      SplitJoin(data);
    }
  }

  /**
    * load as written: the else binds to the inner if, so only a "data" key with an
    * empty value reaches the settings map, and no other stored setting is read back.
    */
  function LoadAsWritten(settingsMap: map<string, string>, data: seq<string>, g: Group): (r: (map<string, string>, seq<string>))
    ensures "data" in g && g["data"] != "" ==> r.0 == settingsMap
    ensures "data" in g && g["data"] == "" ==> r.0 == settingsMap["data" := ""]
    ensures "data" !in g ==> r == (settingsMap, data)
    ensures "data" in g ==> r.1 == data + LoadedItems(g["data"])
  {
    if "data" in g then
      if g["data"] != "" then (settingsMap, data + Split(g["data"]))
      else (settingsMap["data" := g["data"]], data)
    else (settingsMap, data)
  }

  /** As written, load never changes a setting other than "data". */
  lemma LoadAsWrittenIgnoresSettings(settingsMap: map<string, string>, data: seq<string>, g: Group, k: string)
    requires k != "data"
    ensures k in LoadAsWritten(settingsMap, data, g).0 <==> k in settingsMap
    ensures k in settingsMap ==> LoadAsWritten(settingsMap, data, g).0[k] == settingsMap[k]
  {
  }

  /** A filter group holding a name besides its type, and one pattern. */
  const NamedSettings: map<string, string> := map["type" := "filters", "name" := "Temporary files"]
  const NamedItems: seq<string> := ["*.tmp"]

  /** A saved setting other than "type" is lost by save followed by load as written into a fresh group. */
  lemma SettingLostOnReload()
    ensures "name" in SavedGroup(NamedSettings, NamedItems)
    ensures "name" !in LoadAsWritten(map["type" := "filters"], [], SavedGroup(NamedSettings, NamedItems)).0
  {
    assert SavedGroup(NamedSettings, NamedItems)["data"] == "*.tmp";
  }

  /**
    * load as evidently intended (the else bound to the outer if): every stored key
    * other than "data" goes into the settings map; a non-empty "data" appends its items.
    */
  function LoadIntended(settingsMap: map<string, string>, data: seq<string>, g: Group): (r: (map<string, string>, seq<string>))
    ensures forall k :: k in g && k != "data" ==> k in r.0 && r.0[k] == g[k]
    ensures forall k :: k in r.0 ==> k in settingsMap || (k in g && k != "data")
    ensures "data" in g ==> r.1 == data + LoadedItems(g["data"])
    ensures "data" !in g ==> r.1 == data
  {
    var loaded := map k | k in g && k != "data" :: g[k];
    (settingsMap + loaded,
     if "data" in g then data + LoadedItems(g["data"]) else data)
  }

  /**
    * With the intended load, save then load into a fresh group of the same type gives back
    * the saved settings and items (items free of ';', no setting named "data", not [""]).
    */
  lemma SaveLoadRoundTrip(settingsMap: map<string, string>, data: seq<string>)
    requires "data" !in settingsMap
    requires forall i :: 0 <= i < |data| ==> Sep !in data[i]
    requires data != [""]
    ensures LoadIntended(map["type" := GroupName(settingsMap)], [], SavedGroup(settingsMap, data)) ==
              (map["type" := GroupName(settingsMap)] + settingsMap, data)
  {
    ItemsRoundTrip(data);
    var g := SavedGroup(settingsMap, data);
    var initial := map["type" := GroupName(settingsMap)];
    var loaded := map k | k in g && k != "data" :: g[k];
    assert loaded == settingsMap;
    assert [] + LoadedItems(g["data"]) == data;
  }

  class ExceptionGroup {
    var settingsMap: map<string, string>
    var data: seq<string>

    constructor()
      ensures settingsMap == map[] && data == []
    {
      settingsMap := map[];
      data := [];
    }

    /** settings_map->insert(key, value). */
    method SetValue(key: string, value: string)
      modifies this
      ensures settingsMap == old(settingsMap)[key := value]
      ensures data == old(data)
      ensures Value(key) == Some(value)
      ensures forall k :: k != key ==> Value(k) == old(Value(k))
    {
      settingsMap := settingsMap[key := value];
    }

    /** settings_map->value(key); None stands for the invalid QVariant of a missing key. */
    function Value(key: string): (r: Option<string>)
      reads this
      ensures r.Some? <==> key in settingsMap
      ensures r.Some? ==> r.value == settingsMap[key]
    {
      if key in settingsMap then Some(settingsMap[key]) else None
    }

    function Count(): (n: nat)
      reads this
      ensures n == |data|
    {
      |data|
    }

    /** data->at(i): Qt asserts the index is valid. */
    function At(i: int): (item: string)
      reads this
      requires 0 <= i < Count()
      ensures item == data[i]
    {
      data[i]
    }

    /** addItem: appends item unless it is already there; true exactly when it was appended. */
    method AddItem(item: string) returns (added: bool)
      modifies this
      ensures added <==> item !in old(data)
      ensures added ==> data == old(data) + [item]
      ensures !added ==> data == old(data)
      ensures item in data && Count() >= 1
      ensures added ==> At(Count() - 1) == item
      ensures Distinct(old(data)) ==> Distinct(data)
      ensures settingsMap == old(settingsMap)
    {
      if item in data {
        return false;
      }
      data := data + [item];
      return true;
    }

    /** removeItem: every occurrence of item goes. */
    method RemoveItem(item: string)
      modifies this
      ensures data == RemoveAll(old(data), item)
      ensures item !in data
      ensures settingsMap == old(settingsMap)
    {
      data := RemoveAll(data, item);
    }

    /** removeAt(i): Qt asserts the index is valid. */
    method RemoveAt(i: int)
      requires 0 <= i < Count()
      modifies this
      ensures data == old(data)[..i] + old(data)[i + 1..]
      ensures Count() == old(Count()) - 1
      ensures settingsMap == old(settingsMap)
    {
      data := data[..i] + data[i + 1..];
    }

    /** importData: appends the given list, duplicates included. */
    method ImportData(items: seq<string>)
      modifies this
      ensures data == old(data) + items
      ensures settingsMap == old(settingsMap)
    {
      data := data + items;
    }

    /** save: the group named by "type" is cleared, then holds every setting and the joined items. */
    method Save(settings: Settings)
      modifies settings
      ensures settings.store == old(settings.store)[GroupName(settingsMap) := SavedGroup(settingsMap, data)]
    {
      var name := GroupName(settingsMap);
      settings.Clear(name);
      var remaining := settingsMap.Keys;
      while remaining != {}
        invariant remaining <= settingsMap.Keys
        invariant settings.store == old(settings.store)[name := map k | k in settingsMap && k !in remaining :: settingsMap[k]]
        decreases remaining
      {
        var key :| key in remaining;
        settings.SetValue(name, key, settingsMap[key]);
        remaining := remaining - {key};
        assert settings.GroupOf(name) == map k | k in settingsMap && k !in remaining :: settingsMap[k];
      }
      assert (map k | k in settingsMap && k !in remaining :: settingsMap[k]) == settingsMap;
      settings.SetValue(name, "data", Join(data));
    }

    /** load, as written: see LoadAsWritten for what the dangling else does. */
    method Load(settings: Settings)
      modifies this
      ensures (settingsMap, data) == LoadAsWritten(old(settingsMap), old(data), settings.GroupOf(GroupName(old(settingsMap))))
    {
      var g := settings.GroupOf(GroupName(settingsMap));
      ghost var map0, data0 := settingsMap, data;
      var keys := g.Keys;
      while keys != {}
        invariant keys <= g.Keys
        invariant "data" in keys ==> settingsMap == map0 && data == data0
        invariant "data" !in keys ==> (settingsMap, data) == LoadAsWritten(map0, data0, g)
        decreases keys
      {
        var key :| key in keys;
        if key == "data" {
          if g[key] != "" {
            data := data + Split(g[key]);
          } else {
            settingsMap := settingsMap[key := g[key]];
          }
        }
        keys := keys - {key};
      }
    }
  }
}
