/** The key-value store over the skip list does what the commands of the log mean. */
module KVStores {
  import opened Commands
  import opened SkipLists

  class KVStore {
    const list: SkipList<string, string>

    constructor (less: (string, string) -> bool, maxLevel: nat)
      requires StrictOrder(less) && maxLevel >= 1
      ensures list.Valid() && list.contents == map[] && list.default == "" && list.head.height == maxLevel
    {
      list := new SkipList(less, "", "", maxLevel);
    }

    /** height stands for the random draw of the level. */
    method DoPut(key: string, value: string, height: nat) returns (ok: bool)
      requires list.Valid() && 1 <= height <= list.head.height
      modifies list, list.nodes
      ensures list.Valid() && list.contents == Apply(old(list.contents), Put(key, value))
      ensures ok == (key !in old(list.contents))
      ensures key in old(list.contents) ==> list.contents == old(list.contents)
      ensures key !in old(list.contents) ==> list.contents == old(list.contents)[key := value]
    {
      hide StrictOrder, Shape, Level, Sorted, Holds, Highest, Lengths, Element;
      var node;
      node, ok := list.Insert(key, value, height);
    }

    method DoUpdate(key: string, value: string, height: nat) returns (ok: bool)
      requires list.Valid() && 1 <= height <= list.head.height
      modifies list, list.nodes
      ensures list.Valid() && list.contents == Apply(old(list.contents), Update(key, value)) && ok
      ensures list.contents == old(list.contents)[key := value]
    {
      hide StrictOrder, Shape, Level, Sorted, Holds, Highest, Lengths, Element;
      var node := list.GetOrInsert(key, height);
      list.SetValue(node, value);
      ok := true;
    }

    method DoRemove(key: string) returns (ok: bool)
      requires list.Valid()
      modifies list, list.nodes
      ensures list.Valid() && list.contents == Apply(old(list.contents), Delete(key))
      ensures ok == (key in old(list.contents))
      ensures list.contents == old(list.contents) - {key}
    {
      hide StrictOrder, Shape, Level, Sorted, Holds, Highest, Lengths, Element;
      var count := list.EraseKey(key);
      ok := count != 0;
    }

    /** A read of a missing key stores the default value under it. */
    method DoGet(key: string, height: nat) returns (value: string)
      requires list.Valid() && list.default == "" && 1 <= height <= list.head.height
      modifies list, list.nodes
      ensures list.Valid() && list.contents == Get(old(list.contents), key) && value == list.contents[key]
      ensures key in old(list.contents) ==> list.contents == old(list.contents)
      ensures key !in old(list.contents) ==> list.contents == old(list.contents)[key := ""]
    {
      hide StrictOrder, Shape, Level, Sorted, Holds, Highest, Lengths, Element;
      var node := list.GetOrInsert(key, height);
      value := node.value;
    }
  }
}
