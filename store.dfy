/** The `shelve` database `inkbot_list.db` that `InkBot.start` opens (inkbot.py:96):
    the ids of the comments already answered, each mapped to the reply posted. */
module Store {

  class PostList {
    var entries: map<string, string>
    var closed: bool

    /** `shelve.open`: the entries persisted by earlier sessions. */
    constructor Open(persisted: map<string, string>)
      ensures entries == persisted && !closed
    {
      entries := persisted;
      closed := false;
    }

    /** `sid in self.PostList` (inkbot.py:150). */
    method Contains(key: string) returns (b: bool)
      requires !closed
      ensures b <==> key in entries
    {
      b := key in entries;
    }

    /** `self.PostList[key] = value` followed by `sync` (inkbot.py:137-138). */
    method Put(key: string, value: string)
      requires !closed
      modifies this
      ensures entries == old(entries)[key := value] && !closed
    {
      entries := entries[key := value];
    }

    /** `self.PostList.close()` (inkbot.py:122, inkbot.py:201); the entries stay on disk. */
    method Close()
      modifies this
      ensures closed && entries == old(entries)
    {
      closed := true;
    }
  }
}
