/** Push notification configs: a list per task, and an index into it that in-place deletion keeps exact. */
module PushNotificationStore {
  import opened Protocol
  import opened Decimal

  const MAX_SIZE: nat := 0xFFFF_FFFF_FFFF_FFFF

  datatype Config = Config(taskId: Bytes, id: Bytes, url: Bytes)

  datatype Error =
    | TaskIdRequired
    | ConfigIdRequired
    | UrlRequired
    | TaskNotFound
    | ConfigNotFound
    | PageSizeInvalid
    | PageTokenInvalid
    | PageTokenOutOfRange

  datatype Page = Page(configs: seq<Config>, nextPageToken: Bytes)

  /** A task's configs in order of creation, and where each id stands. */
  datatype TaskConfigs = TaskConfigs(configs: seq<Config>, indices: map<Bytes, nat>)

  // ----- The list and its index ----------------------------------------------

  /** The index is the inverse of the list. */
  ghost predicate Exact(t: TaskConfigs)
  {
    && (forall id :: id in t.indices ==> t.indices[id] < |t.configs| && t.configs[t.indices[id]].id == id)
    && (forall i :: 0 <= i < |t.configs| ==> t.configs[i].id in t.indices && t.indices[t.configs[i].id] == i)
  }

  /** Replaces the config of that id in its place, or adds it at the end. */
  function Upserted(list: seq<Config>, config: Config): seq<Config>
  {
    if list == [] then [config]
    else if list[0].id == config.id then [config] + list[1..]
    else [list[0]] + Upserted(list[1..], config)
  }

  /** The others, in their order. */
  function Removed(list: seq<Config>, id: Bytes): seq<Config>
  {
    if list == [] then []
    else if list[0].id == id then Removed(list[1..], id)
    else [list[0]] + Removed(list[1..], id)
  }

  function Lookup(list: seq<Config>, id: Bytes): Option<Config>
  {
    if list == [] then None else if list[0].id == id then Some(list[0]) else Lookup(list[1..], id)
  }

  predicate Distinct(list: seq<Config>)
  {
    forall i, j :: 0 <= i < j < |list| ==> list[i].id != list[j].id
  }

  lemma ExactIsDistinct(t: TaskConfigs)
    requires Exact(t)
    ensures Distinct(t.configs)
  {
  }

  lemma {:induction false} UpsertedAt(list: seq<Config>, config: Config, k: nat)
    requires Distinct(list) && k <= |list| && (k < |list| ==> list[k].id == config.id)
    requires k == |list| ==> forall i :: 0 <= i < |list| ==> list[i].id != config.id
    ensures Upserted(list, config) == if k < |list| then list[k := config] else list + [config]
  {
    if list != [] && k > 0 {
      assert list[0].id != config.id;
      UpsertedAt(list[1..], config, k - 1);
    }
  }

  lemma {:induction false} RemovedAt(list: seq<Config>, k: nat)
    requires Distinct(list) && k < |list|
    ensures Removed(list, list[k].id) == list[..k] + list[k + 1..]
  {
    if k == 0 {
      RemovesNothing(list[1..], list[0].id);
      assert list[..0] + list[1..] == list[1..];
    } else {
      RemovedAt(list[1..], k - 1);
      assert list[1..][k - 1] == list[k] && list[0].id != list[k].id;
      assert list[..k] + list[k + 1..] == [list[0]] + (list[1..][..k - 1] + list[1..][k..]);
    }
  }

  lemma {:induction false} RemovesNothing(list: seq<Config>, id: Bytes)
    requires forall i :: 0 <= i < |list| ==> list[i].id != id
    ensures Removed(list, id) == list && Lookup(list, id) == None
  {
    if list != [] { RemovesNothing(list[1..], id); }
  }

  lemma {:induction false} LookupAt(list: seq<Config>, k: nat)
    requires Distinct(list) && k < |list|
    ensures Lookup(list, list[k].id) == Some(list[k])
  {
    if k > 0 {
      assert list[0].id != list[k].id;
      LookupAt(list[1..], k - 1);
    }
  }

  /** An existing config is replaced in its place. */
  lemma UpdatedExact(t: TaskConfigs, config: Config)
    requires Exact(t) && config.id in t.indices
    ensures t.indices[config.id] < |t.configs|
    ensures var updated := t.(configs := t.configs[t.indices[config.id] := config]);
      Exact(updated) && updated.configs == Upserted(t.configs, config) && updated.configs != []
  {
    var k := t.indices[config.id];
    ExactIsDistinct(t);
    UpsertedAt(t.configs, config, k);
    SameIdsExact(t, t.configs[k := config]);
  }

  lemma SameIdsExact(t: TaskConfigs, configs: seq<Config>)
    requires Exact(t) && |configs| == |t.configs| && forall i :: 0 <= i < |configs| ==> configs[i].id == t.configs[i].id
    ensures Exact(t.(configs := configs))
  {
  }

  /** A new config comes last. */
  lemma AddedExact(t: TaskConfigs, config: Config)
    requires Exact(t) && config.id !in t.indices
    ensures var added := TaskConfigs(t.configs + [config], t.indices[config.id := |t.configs|]);
      Exact(added) && added.configs == Upserted(t.configs, config) && added.configs != []
  {
    ExactIsDistinct(t);
    UpsertedAt(t.configs, config, |t.configs|);
    hide Upserted;
    var added := TaskConfigs(t.configs + [config], t.indices[config.id := |t.configs|]);
    forall i | 0 <= i < |added.configs|
      ensures added.configs[i].id in added.indices && added.indices[added.configs[i].id] == i
    {
      if i < |t.configs| { assert added.configs[i] == t.configs[i]; }
    }
  }

  lemma AbsentIsNotRemoved(t: TaskConfigs, id: Bytes)
    requires Exact(t) && id !in t.indices
    ensures Removed(t.configs, id) == t.configs
  {
    RemovesNothing(t.configs, id);
  }

  lemma EmptyTogether(t: TaskConfigs)
    requires Exact(t)
    ensures t.indices == map[] <==> t.configs == []
  {
    if t.configs != [] { assert t.configs[0].id in t.indices; }
  }

  // ----- The store -----------------------------------------------------------

  type Contents = map<Bytes, seq<Config>>

  ghost predicate Consistent(m: map<Bytes, TaskConfigs>)
  {
    forall task :: task in m ==> Exact(m[task]) && m[task].configs != []
  }

  ghost function ListsOf(m: map<Bytes, TaskConfigs>): Contents
  {
    map task | task in m :: m[task].configs
  }

  /** What is known of a task's configs, and of none if it has none. */
  lemma TaskOf(m: map<Bytes, TaskConfigs>, task: Bytes)
    requires Consistent(m)
    ensures task in m <==> task in ListsOf(m)
    ensures task in m ==> Exact(m[task]) && ListsOf(m)[task] == m[task].configs && m[task].configs != []
    ensures Exact(TaskConfigs([], map[]))
  {
  }

  lemma TaskSet(m: map<Bytes, TaskConfigs>, task: Bytes, t: TaskConfigs)
    requires Consistent(m) && Exact(t) && t.configs != []
    ensures Consistent(m[task := t]) && ListsOf(m[task := t]) == ListsOf(m)[task := t.configs]
  {
    hide Exact;
  }

  lemma TaskDropped(m: map<Bytes, TaskConfigs>, task: Bytes)
    requires Consistent(m)
    ensures Consistent(m - {task}) && ListsOf(m - {task}) == ListsOf(m) - {task}
  {
    hide Exact;
  }

  /** The lists after a change to one task's; a task without configs has no entry. */
  ghost function Changed(lists: Contents, task: Bytes, list: seq<Config>): Contents
  {
    if list == [] then lists - {task} else lists[task := list]
  }

  ghost function ListOf(lists: Contents, task: Bytes): seq<Config>
  {
    if task in lists then lists[task] else []
  }

  function ConfigError(config: Config): Option<Error>
  {
    if config.taskId == [] then Some(TaskIdRequired)
    else if config.id == [] then Some(ConfigIdRequired)
    else if config.url == [] then Some(UrlRequired)
    else None
  }

  function LookupError(task: Bytes, id: Bytes): Option<Error>
  {
    if task == [] then Some(TaskIdRequired) else if id == [] then Some(ConfigIdRequired) else None
  }

  function ParsePageToken(token: Bytes): Result<nat, Error>
  {
    if token == [] then Ok(0)
    else
      var read := ReadUnsigned(token, MAX_SIZE);
      if read.Some? then Ok(read.value) else Err(PageTokenInvalid)
  }

  /** The page of a list from `start`; page size 0 stands for all the rest. */
  function PageFrom(list: seq<Config>, start: nat, size: nat): Page
    requires start <= |list|
  {
    var end := if size == 0 || |list| - start <= size then |list| else start + size;
    Page(list[start..end], if end < |list| then Text(end) else [])
  }

  class InMemoryPushNotificationStore {
    var configs: map<Bytes, TaskConfigs>

    ghost predicate Valid()
      reads this
    {
      Consistent(configs)
    }

    ghost function Lists(): Contents
      reads this
    {
      ListsOf(configs)
    }

    constructor ()
      ensures Valid() && Lists() == map[]
    {
      configs := map[];
    }

    method CreateOrUpdate(config: Config) returns (r: Result<Config, Error>)
      requires Valid()
      modifies this
      ensures Valid()
      ensures r == if config.taskId == [] then Err(TaskIdRequired)
                   else if config.id == [] then Err(ConfigIdRequired)
                   else if config.url == [] then Err(UrlRequired)
                   else Ok(config)
      ensures Lists() == if r.Err? then old(Lists())
                         else old(Lists())[config.taskId := Upserted(ListOf(old(Lists()), config.taskId), config)]
    {
      hide ListsOf, Consistent, Exact, Upserted;
      TaskOf(configs, config.taskId);
      var invalid := ConfigError(config);
      if invalid.Some? {
        return Err(invalid.value);
      }
      var t := if config.taskId in configs then configs[config.taskId] else TaskConfigs([], map[]);
      if config.id in t.indices {
        UpdatedExact(t, config);
        var index := t.indices[config.id];
        TaskSet(configs, config.taskId, t.(configs := t.configs[index := config]));
        configs := configs[config.taskId := t.(configs := t.configs[index := config])];
        return Ok(config);
      }
      AddedExact(t, config);
      TaskSet(configs, config.taskId, TaskConfigs(t.configs + [config], t.indices[config.id := |t.configs|]));
      configs := configs[config.taskId :=
        TaskConfigs(t.configs + [config], t.indices[config.id := |t.configs|])];
      return Ok(config);
    }

    method Get(task: Bytes, id: Bytes) returns (r: Result<Config, Error>)
      requires Valid()
      ensures r == if task == [] then Err(TaskIdRequired)
                   else if id == [] then Err(ConfigIdRequired)
                   else if task !in Lists() then Err(TaskNotFound)
                   else if Lookup(Lists()[task], id).None? then Err(ConfigNotFound)
                   else Ok(Lookup(Lists()[task], id).value)
    {
      var invalid := LookupError(task, id);
      if invalid.Some? {
        return Err(invalid.value);
      }
      if task !in configs {
        return Err(TaskNotFound);
      }
      var t := configs[task];
      ExactIsDistinct(t);
      if id !in t.indices {
        RemovesNothing(t.configs, id);
        return Err(ConfigNotFound);
      }
      LookupAt(t.configs, t.indices[id]);
      return Ok(t.configs[t.indices[id]]);
    }

    method List(task: Bytes, pageSize: int, token: Bytes) returns (r: Result<Page, Error>)
      requires Valid()
      ensures r == if task == [] then Err(TaskIdRequired)
                   else if pageSize < 0 then Err(PageSizeInvalid)
                   else if ParsePageToken(token).Err? then Err(PageTokenInvalid)
                   else if task !in Lists() then Ok(Page([], []))
                   else if ParsePageToken(token).value > |Lists()[task]| then Err(PageTokenOutOfRange)
                   else Ok(PageFrom(Lists()[task], ParsePageToken(token).value, pageSize))
    {
      if task == [] {
        return Err(TaskIdRequired);
      }
      if pageSize < 0 {
        return Err(PageSizeInvalid);
      }
      var offset := ParsePageToken(token);
      if offset.Err? {
        return Err(offset.error);
      }
      if task !in configs {
        return Ok(Page([], []));
      }
      var source := configs[task].configs;
      var start := offset.value;
      if start > |source| {
        return Err(PageTokenOutOfRange);
      }
      var remaining := |source| - start;
      var effective := if pageSize == 0 then remaining else pageSize;
      var size := if effective < remaining then effective else remaining;
      var page: seq<Config> := [];
      for index := start to start + size
        invariant page == source[start..index]
      {
        page := page + [source[index]];
      }
      var next := if size < remaining then Text(start + size) else [];
      return Ok(Page(page, next));
    }

    method Delete(task: Bytes, id: Bytes) returns (r: Result<(), Error>)
      requires Valid()
      modifies this
      ensures Valid()
      ensures r == if task == [] then Err(TaskIdRequired) else if id == [] then Err(ConfigIdRequired) else Ok(())
      ensures Lists() == if r.Err? then old(Lists())
                         else Changed(old(Lists()), task, Removed(ListOf(old(Lists()), task), id))
    {
      hide ListsOf, Consistent, Exact, Removed;
      TaskOf(configs, task);
      var invalid := LookupError(task, id);
      if invalid.Some? {
        return Err(invalid.value);
      }
      if task !in configs {
        assert Lists() - {task} == Lists() && Removed([], id) == [] by { RemovesNothing([], id); }
        return Ok(());
      }
      var t := configs[task];
      if id !in t.indices {
        AbsentIsNotRemoved(t, id);
        assert Lists()[task := t.configs] == Lists();
        return Ok(());
      }
      t := RemoveInPlace(t, id);
      EmptyTogether(t);
      if t.indices == map[] {
        TaskDropped(configs, task);
        configs := configs - {task};
      } else {
        TaskSet(configs, task, t);
        configs := configs[task := t];
      }
      return Ok(());
    }

    /** Swaps the config to the end, one place at a time, keeping the index of the ones it passes, and drops it. */
    static method RemoveInPlace(before: TaskConfigs, id: Bytes) returns (t: TaskConfigs)
      requires Exact(before) && id in before.indices
      ensures Exact(t) && t.configs == Removed(before.configs, id)
    {
      hide Exact, Moved, Removed;
      var configs: seq<Config> := before.configs;
      var indices: map<Bytes, nat> := before.indices;
      ExactAt(before, id);
      var first := indices[id];
      var last := |configs| - 1;
      MovedNowhere(before, id);
      for index := first to last
        invariant configs == Moved(before.configs, first, index)
        invariant Tracks(before, TaskConfigs(configs, indices), index)
      {
        MovedOn(before.configs, first, index);
        TracksOn(before, TaskConfigs(configs, indices), id, index);
        configs := configs[index := configs[index + 1]][index + 1 := configs[index]];
        indices := indices[configs[index].id := index];
      }
      t := TaskConfigs(configs[..last], indices - {id});
      MovedToEnd(before, TaskConfigs(configs, indices), id);
    }
  }

  // ----- Deleting in place ---------------------------------------------------

  /** The list with the entry at `first` moved on to `index`. */
  function Moved(list: seq<Config>, first: nat, index: nat): seq<Config>
    requires first <= index < |list|
  {
    list[..first] + list[first + 1..index + 1] + [list[first]] + list[index + 1..]
  }

  /** Every config but the one on the move is where the index says. */
  ghost predicate Tracks(before: TaskConfigs, t: TaskConfigs, index: nat)
  {
    && |t.configs| == |before.configs| && t.indices.Keys == before.indices.Keys
    && forall i :: 0 <= i < |t.configs| && i != index ==>
         t.configs[i].id in t.indices && t.indices[t.configs[i].id] == i
  }

  lemma ExactAt(t: TaskConfigs, id: Bytes)
    requires Exact(t) && id in t.indices
    ensures t.indices[id] < |t.configs| && t.configs[t.indices[id]].id == id
  {
  }

  lemma MovedNowhere(t: TaskConfigs, id: Bytes)
    requires Exact(t) && id in t.indices
    ensures t.indices[id] < |t.configs| && t.configs == Moved(t.configs, t.indices[id], t.indices[id])
    ensures Tracks(t, t, t.indices[id])
  {
  }

  lemma MovedOn(list: seq<Config>, first: nat, index: nat)
    requires first <= index < |list| - 1
    ensures var now := Moved(list, first, index);
      && |now| == |list| && now[index] == list[first] && now[index + 1] == list[index + 1]
      && now[index := now[index + 1]][index + 1 := now[index]] == Moved(list, first, index + 1)
  {
  }

  lemma TracksOn(before: TaskConfigs, t: TaskConfigs, id: Bytes, index: nat)
    requires Exact(before) && id in before.indices && before.indices[id] <= index < |before.configs| - 1
    requires t.configs == Moved(before.configs, before.indices[id], index) && Tracks(before, t, index)
    ensures var configs := t.configs[index := t.configs[index + 1]][index + 1 := t.configs[index]];
      Tracks(before, TaskConfigs(configs, t.indices[configs[index].id := index]), index + 1)
  {
    var list, first := before.configs, before.indices[id];
    var configs := t.configs[index := t.configs[index + 1]][index + 1 := t.configs[index]];
    assert configs[index] == t.configs[index + 1] && configs[index].id in t.indices;
    forall i | 0 <= i < |configs| && i != index && i != index + 1 ensures configs[i].id != configs[index].id {
      assert t.indices[t.configs[i].id] == i && t.indices[t.configs[index + 1].id] == index + 1;
    }
  }

  lemma MovedToEnd(before: TaskConfigs, t: TaskConfigs, id: Bytes)
    requires Exact(before) && id in before.indices && before.indices[id] < |before.configs|
    requires t.configs == Moved(before.configs, before.indices[id], |before.configs| - 1)
    requires Tracks(before, t, |before.configs| - 1)
    ensures var after := TaskConfigs(t.configs[..|before.configs| - 1], t.indices - {id});
      Exact(after) && after.configs == Removed(before.configs, id)
  {
    var list, first, last := before.configs, before.indices[id], |before.configs| - 1;
    var after := TaskConfigs(t.configs[..last], t.indices - {id});
    LeftAreOthers(before, t, id);
    hide Moved, Removed;
    assert after.indices.Keys == before.indices.Keys - {id};
    forall other | other in after.indices
      ensures after.indices[other] < last && after.configs[after.indices[other]].id == other
    {
      FoundBehind(before, t, id, other);
    }
  }

  lemma LeftAreOthers(before: TaskConfigs, t: TaskConfigs, id: Bytes)
    requires Exact(before) && id in before.indices && before.indices[id] < |before.configs|
    requires t.configs == Moved(before.configs, before.indices[id], |before.configs| - 1)
    ensures |t.configs| == |before.configs|
    ensures t.configs[..|before.configs| - 1] == Removed(before.configs, id)
    ensures forall i :: 0 <= i < |before.configs| - 1 ==> t.configs[i].id != id
  {
    hide Moved, Removed;
    ExactAt(before, id);
    ExactIsDistinct(before);
    RemovedAt(before.configs, before.indices[id]);
    LeftBehind(before.configs, before.indices[id]);
  }

  lemma FoundBehind(before: TaskConfigs, t: TaskConfigs, id: Bytes, other: Bytes)
    requires Exact(before) && id in before.indices && other in before.indices && other != id
    requires before.indices[id] < |before.configs|
    requires t.configs == Moved(before.configs, before.indices[id], |before.configs| - 1)
    requires Tracks(before, t, |before.configs| - 1)
    ensures other in t.indices && t.indices[other] < |before.configs| - 1 && t.configs[t.indices[other]].id == other
  {
    var first, k := before.indices[id], before.indices[other];
    LeftBehind(before.configs, first);
    hide Moved;
    var i := if k < first then k else k - 1;
    assert Place(first, i) == k;
    assert t.configs[i] == before.configs[k];
  }

  /** The entry moved to the end and dropped, the others stand in their order. */
  lemma LeftBehind(list: seq<Config>, first: nat)
    requires first < |list|
    ensures var rest := Moved(list, first, |list| - 1);
      && |rest| == |list| && rest[..|list| - 1] == list[..first] + list[first + 1..]
      && forall i :: 0 <= i < |list| - 1 ==> rest[i] == list[Place(first, i)]
  {
  }

  /** Where the `i`-th of the remaining entries stood. */
  function Place(first: nat, i: nat): nat
  {
    if i < first then i else i + 1
  }

  // ----- Pages -----------------------------------------------------------------

  /** A token is empty, or decimal digits for a number of at most 64 bits. */
  lemma TokensParse(token: Bytes)
    ensures ParsePageToken(token) ==
      if token == [] then Ok(0)
      else if (forall i :: 0 <= i < |token| ==> 48 <= token[i] <= 57) && Denotes(token) <= 0xFFFF_FFFF_FFFF_FFFF
      then Ok(Denotes(token)) else Err(PageTokenInvalid)
  {
  }

  /** A page is a stretch of the list of at most the size asked for, if one is; it has a token exactly if more follows,
      is then of exactly that size, and the token says where it stopped. */
  lemma PageIsFull(list: seq<Config>, start: nat, size: nat)
    requires start <= |list|
    ensures var page := PageFrom(list, start, size);
      var end := start + |page.configs|;
      && end <= |list| && page.configs == list[start..end] && (size != 0 ==> |page.configs| <= size)
      && (end < |list| ==> |page.configs| == size && page.nextPageToken == Text(end))
      && (end == |list| ==> page.nextPageToken == [])
  {
  }

  // ----- Following the page tokens -------------------------------------------

  /** The pages a caller collects who follows the tokens, from `token` to the last page. */
  ghost predicate Collects(pages: seq<Page>, list: seq<Config>, token: Bytes, size: nat)
    decreases |pages|
  {
    && pages != [] && ParsePageToken(token).Ok? && ParsePageToken(token).value <= |list|
    && pages[0] == PageFrom(list, ParsePageToken(token).value, size)
    && if pages[0].nextPageToken == [] then |pages| == 1 else Collects(pages[1..], list, pages[0].nextPageToken, size)
  }

  function Joined(pages: seq<Page>): seq<Config>
  {
    if pages == [] then [] else pages[0].configs + Joined(pages[1..])
  }

  lemma TokenReadsBack(n: nat)
    requires n <= MAX_SIZE
    ensures Text(n) != [] && ParsePageToken(Text(n)) == Ok(n)
  {
    TextDenotes(n);
  }

  lemma {:induction false} TokensCoverFrom(pages: seq<Page>, list: seq<Config>, token: Bytes, size: nat)
    requires |list| <= MAX_SIZE && Collects(pages, list, token, size)
    ensures Joined(pages) == list[ParsePageToken(token).value..]
    decreases |pages|
  {
    hide ParsePageToken, Text;
    var start := ParsePageToken(token).value;
    if size != 0 && |list| - start > size {
      TokenReadsBack(start + size);
      TokensCoverFrom(pages[1..], list, Text(start + size), size);
      assert list[start..] == list[start..start + size] + list[start + size..];
    } else {
      assert pages[1..] == [] && Joined([]) == [];
    }
  }

  /** Following the tokens comes to an end, after no more pages than there are configs, or one. */
  lemma TokensEnd(list: seq<Config>, size: nat) returns (pages: seq<Page>)
    requires |list| <= MAX_SIZE
    ensures Collects(pages, list, [], size) && (|pages| <= 1 || |pages| <= |list|)
  {
    pages := PagesFrom(list, [], size);
  }

  lemma {:induction false} PagesFrom(list: seq<Config>, token: Bytes, size: nat) returns (pages: seq<Page>)
    requires |list| <= MAX_SIZE && ParsePageToken(token).Ok? && ParsePageToken(token).value <= |list|
    ensures Collects(pages, list, token, size) && (|pages| <= 1 || |pages| <= |list| - ParsePageToken(token).value)
    decreases |list| - ParsePageToken(token).value
  {
    hide ParsePageToken, Text;
    var start := ParsePageToken(token).value;
    var first := PageFrom(list, start, size);
    pages := [first];
    if size != 0 && |list| - start > size {
      TokenReadsBack(start + size);
      var rest := PagesFrom(list, first.nextPageToken, size);
      pages := pages + rest;
      assert pages[1..] == rest;
    }
  }

  /** Following the tokens, with pages of any size, gives the list itself: every config once and in order. */
  lemma TokensCoverTheList(pages: seq<Page>, list: seq<Config>, size: nat)
    requires |list| <= MAX_SIZE && Collects(pages, list, [], size)
    ensures Joined(pages) == list
  {
    TokensCoverFrom(pages, list, [], size);
    assert list[0..] == list;
  }

  // ----- What the operations do to a list -------------------------------------

  /** Creating is found again, leaves other ids alone and keeps every place; deleting undoes it. */
  lemma {:induction false} UpsertedIsFound(list: seq<Config>, config: Config, other: Bytes)
    requires other != config.id
    ensures Lookup(Upserted(list, config), config.id) == Some(config)
    ensures Lookup(Upserted(list, config), other) == Lookup(list, other)
    ensures Removed(Upserted(list, config), config.id) == Removed(list, config.id)
  {
    if list != [] {
      if list[0].id != config.id { UpsertedIsFound(list[1..], config, other); }
    } else {
      assert [config][1..] == [];
    }
  }

  lemma {:induction false} RemovedIsGone(list: seq<Config>, id: Bytes, other: Bytes)
    requires other != id
    ensures Lookup(Removed(list, id), id) == None && Lookup(Removed(list, id), other) == Lookup(list, other)
  {
    if list != [] {
      RemovedIsGone(list[1..], id, other);
      if list[0].id != id { assert Removed(list, id)[1..] == Removed(list[1..], id); }
    }
  }
}
