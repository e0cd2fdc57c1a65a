/** The application next to a node: it applies committed entries to the key-value store, and saves
    and loads snapshots. */
module ClerkApp {
  import opened Commands
  import opened Journals
  import opened Pipeline
  import opened Replays

  /** What a client hears about its write. */
  datatype Status = Created | InternalError | Default

  /** What a client hears about its read. */
  datatype ReadReply = NotFound | Found(value: string)

  /** Who asked for an entry; entries that came from another node or from the file have nobody. */
  datatype Client = Client(uuid: string, sequence: int)

  datatype Answer = Answer(client: Client, status: Status)

  predicate Waiting(c: Client) {
    c.uuid != "" && c.sequence != 0
  }

  ghost predicate PutDone(command: string, s: Store, after: Store, status: Status) {
    forall key, value :: Clean(key) && Clean(value) && command == "put " + key + " " + value ==>
      if key in s then after == s && status == InternalError else after == s[key := value] && status == Created
  }

  ghost predicate UpdateDone(command: string, s: Store, after: Store, status: Status) {
    forall key, value :: Clean(key) && Clean(value) && command == "update " + key + " " + value ==>
      after == s[key := value] && status == Created
  }

  ghost predicate DeleteDone(command: string, s: Store, after: Store, status: Status) {
    forall key :: Clean(key) && command == "delete " + key ==>
      after == s - {key} && status == if key in s then Created else InternalError
  }

  /** A text with another first word, or with too few words. */
  predicate Malformed(command: string) {
    var op, key, value := Read(command), Read(Rest(command)), Read(Rest(Rest(command)));
    (op != "put" && op != "update" && op != "delete") || key == "" || (op != "delete" && value == "")
  }

  lemma MalformedMeans(command: string, s: Store)
    ensures Malformed(command) <==> Parse(command) == Nothing
    ensures Malformed(command) ==> Commands.Apply(s, Parse(command)) == s && StatusOf(s, Parse(command)) == Default
  {
    hide Read, Rest;
  }

  /** What a client may rely on, in terms of the text it sent: a put sets a missing key and fails on
      one that is there, an update always sets, a delete removes; a failure changes nothing, and neither does
      what cannot be understood. */
  ghost predicate CarriedOut(command: string, s: Store, after: Store, status: Status) {
    && PutDone(command, s, after, status) && UpdateDone(command, s, after, status)
    && DeleteDone(command, s, after, status) && (status != Created ==> after == s)
    && (Malformed(command) <==> status == Default)
  }

  lemma PutMeans(command: string, s: Store)
    ensures PutDone(command, s, Commands.Apply(s, Parse(command)), StatusOf(s, Parse(command)))
  {
    hide Parse, Clean;
    forall key, value | Clean(key) && Clean(value) && command == "put " + key + " " + value
      ensures Parse(command) == Put(key, value)
    {
      PlainParsed(Put(key, value));
    }
  }

  lemma UpdateMeans(command: string, s: Store)
    ensures UpdateDone(command, s, Commands.Apply(s, Parse(command)), StatusOf(s, Parse(command)))
  {
    hide Parse, Clean;
    forall key, value | Clean(key) && Clean(value) && command == "update " + key + " " + value
      ensures Parse(command) == Update(key, value)
    {
      PlainParsed(Update(key, value));
    }
  }

  lemma DeleteMeans(command: string, s: Store)
    ensures DeleteDone(command, s, Commands.Apply(s, Parse(command)), StatusOf(s, Parse(command)))
  {
    hide Parse, Clean;
    forall key | Clean(key) && command == "delete " + key ensures Parse(command) == Delete(key) {
      PlainParsed(Delete(key));
    }
  }

  lemma FailureChangesNothing(s: Store, c: Command)
    ensures StatusOf(s, c) != Created ==> Commands.Apply(s, c) == s
    ensures StatusOf(s, c) == Default <==> c == Nothing
  {}

  lemma MeansWhatItSays(command: string, s: Store)
    ensures CarriedOut(command, s, Commands.Apply(s, Parse(command)), StatusOf(s, Parse(command)))
  {
    hide PutDone, UpdateDone, DeleteDone, Malformed, Parse, Commands.Apply, StatusOf;
    PutMeans(command, s);
    UpdateMeans(command, s);
    DeleteMeans(command, s);
    FailureChangesNothing(s, Parse(command));
    MalformedMeans(command, s);
  }

  type Snapshot = seq<(string, string)>

  /** put fails if the key is there, delete if it is not; what cannot be understood has no status. */
  function StatusOf(s: Store, c: Command): Status {
    match c
    case Put(k, _) => if k in s then InternalError else Created
    case Update(_, _) => Created
    case Delete(k) => if k in s then Created else InternalError
    case Nothing => Default
  }

  /** The answers to a batch: one for each waiting client, in the order of the entries. */
  function Answers(entries: seq<Entry>, clients: seq<Client>, s: Store): seq<Answer>
    requires |clients| == |entries|
  {
    if entries == [] then []
    else
      var n := |entries| - 1;
      var before := Answers(entries[..n], clients[..n], s);
      if Waiting(clients[n]) then before + [AnswerTo(entries, clients, s, n)] else before
  }

  /** The answer to one entry: its status on the store that the entries before it have left. */
  function AnswerTo(entries: seq<Entry>, clients: seq<Client>, s: Store, i: nat): Answer
    requires i < |entries| == |clients|
  {
    Answer(clients[i], StatusOf(Replay(entries[..i], s), Parse(entries[i].command)))
  }

  /** Exactly the clients with an id and a sequence number are answered. */
  lemma {:induction false} WaitingAnswered(entries: seq<Entry>, clients: seq<Client>, s: Store, a: Answer)
    requires |clients| == |entries|
    ensures a in Answers(entries, clients, s) <==>
      exists i :: 0 <= i < |entries| && clients[i].uuid != "" && clients[i].sequence != 0
        && a == AnswerTo(entries, clients, s, i)
  {
    if entries != [] {
      var n := |entries| - 1;
      WaitingAnswered(entries[..n], clients[..n], s, a);
      forall i | 0 <= i < n ensures AnswerTo(entries[..n], clients[..n], s, i) == AnswerTo(entries, clients, s, i) {
        assert entries[..n][..i] == entries[..i];
        assert entries[..n][i] == entries[i] && clients[..n][i] == clients[i];
      }
      hide AnswerTo;
    }
  }

  // ---- the order of the keys ----

  /** Strings by their first different character, a shorter one first. */
  predicate Less(a: string, b: string) {
    b != [] && (a == [] || a[0] < b[0] || (a[0] == b[0] && Less(a[1..], b[1..])))
  }

  lemma {:induction false} LessTransitive(a: string, b: string, c: string)
    requires Less(a, b) && Less(b, c)
    ensures Less(a, c)
  {
    if a != [] && a[0] == b[0] == c[0] {
      LessTransitive(a[1..], b[1..], c[1..]);
    }
  }

  lemma {:induction false} LessTotal(a: string, b: string)
    ensures Less(a, b) || a == b || Less(b, a)
    ensures !(Less(a, b) && Less(b, a))
  {
    if a != [] && b != [] && a[0] == b[0] {
      LessTotal(a[1..], b[1..]);
      assert a == [a[0]] + a[1..] && b == [b[0]] + b[1..];
    }
  }

  ghost predicate Least(k: string, keys: set<string>) {
    k in keys && forall l :: l in keys && l != k ==> Less(k, l)
  }

  lemma {:induction false} LeastExists(keys: set<string>)
    requires keys != {}
    ensures exists k :: Least(k, keys)
    decreases |keys|
  {
    var x :| x in keys;
    var rest := keys - {x};
    assert forall l :: l in keys ==> l == x || l in rest;
    if rest == {} {
      assert Least(x, keys);
    } else {
      LeastExists(rest);
      var k :| Least(k, rest);
      LessTotal(x, k);
      if Less(x, k) {
        forall l | l in keys && l != x ensures Less(x, l) {
          if l != k {
            LessTransitive(x, k, l);
          }
        }
        assert Least(x, keys);
      } else {
        assert Least(k, keys);
      }
    }
  }

  ghost predicate Ascending(entries: Snapshot) {
    forall i, j :: 0 <= i < j < |entries| ==> Less(entries[i].0, entries[j].0)
  }

  // ---- snapshots ----

  /** Setting the entries of a snapshot one after the other. */
  function Install(entries: Snapshot, s: Store): Store
    decreases |entries|
  {
    if entries == [] then s else Install(entries[1..], s[entries[0].0 := entries[0].1])
  }

  /** Every key of the store once, with its value. */
  ghost predicate Lists(entries: Snapshot, s: Store) {
    && (forall i :: 0 <= i < |entries| ==> entries[i].0 in s && s[entries[i].0] == entries[i].1)
    && (forall k :: k in s ==> exists i :: 0 <= i < |entries| && entries[i].0 == k)
  }

  lemma {:induction false} InstallLookup(entries: Snapshot, s: Store, m: Store, k: string)
    requires forall i :: 0 <= i < |entries| ==> entries[i].0 in m && m[entries[i].0] == entries[i].1
    ensures Lookup(Install(entries, s), k) ==
      if exists i :: 0 <= i < |entries| && entries[i].0 == k then Lookup(m, k) else Lookup(s, k)
    decreases |entries|
  {
    if entries != [] {
      var rest := entries[1..];
      InstallLookup(rest, s[entries[0].0 := entries[0].1], m, k);
      assert (exists i :: 0 <= i < |entries| && entries[i].0 == k) <==>
        entries[0].0 == k || exists i :: 0 <= i < |rest| && rest[i].0 == k by {
        if i :| 0 <= i < |entries| && entries[i].0 == k {
          assert i > 0 ==> rest[i - 1].0 == k;
        }
        if i :| 0 <= i < |rest| && rest[i].0 == k {
          assert entries[i + 1].0 == k;
        }
      }
    }
  }

  /** Loading a snapshot into an empty store gives back the store it was taken from. */
  lemma SnapshotRoundTrip(entries: Snapshot, m: Store)
    requires Lists(entries, m)
    ensures Install(entries, map[]) == m
  {
    forall k ensures Lookup(Install(entries, map[]), k) == Lookup(m, k) {
      InstallLookup(entries, map[], m, k);
    }
    SameStore(Install(entries, map[]), m);
  }

  class Clerk {
    var store: Store
    var file: Journals.Option<Snapshot>
    var notes: seq<Note>

    constructor ()
      ensures store == map[] && file == None && notes == []
    {
      store, file, notes := map[], None, [];
    }

    /** One committed entry: the command is read word by word and carried out. */
    method ApplyEntry(command: string) returns (status: Status)
      modifies `store
      ensures store == Apply(old(store), Parse(command)) && status == StatusOf(old(store), Parse(command))
      ensures CarriedOut(command, old(store), store, status)
    {
      MeansWhatItSays(command, store);
      hide CarriedOut;
      status := Default;
      var op, rest := Read(command), Rest(command);
      if op == "put" {
        var key, value := Read(rest), Read(Rest(rest));
        if key != [] && value != [] {
          if key in store {
            status := InternalError;
          } else {
            store, status := store[key := value], Created;
          }
        }
      } else if op == "update" {
        var key, value := Read(rest), Read(Rest(rest));
        if key != [] && value != [] {
          store, status := store[key := value], Created;
        }
      } else if op == "delete" {
        var key := Read(rest);
        if key != [] {
          if key in store {
            store, status := store - {key}, Created;
          } else {
            status := InternalError;
          }
        }
      }
    }

    /** A batch from the node, in order, with an answer to each waiting client; then the report. */
    method ApplyCommitLogs(upTo: int, entries: seq<Entry>, clients: seq<Client>) returns (answers: seq<Answer>)
      requires |clients| == |entries|
      modifies `store, `notes
      ensures store == Replay(entries, old(store)) && notes == old(notes) + [Applied(upTo)]
      ensures answers == Answers(entries, clients, old(store))
    {
      hide Replay, Parse, StatusOf, Commands.Apply;
      answers := [];
      var i := 0;
      ReplayNone(entries, store);
      while i < |entries|
        invariant 0 <= i <= |entries| && store == Replay(entries[..i], old(store))
        invariant answers == Answers(entries[..i], clients[..i], old(store))
        modifies `store
      {
        ReplayOne(entries, i, old(store));
        AnswersOne(entries, clients, old(store), i);
        var status := ApplyEntry(entries[i].command);
        if Waiting(clients[i]) {
          answers := answers + [Answer(clients[i], status)];
        }
        i := i + 1;
      }
      assert entries[..i] == entries && clients[..i] == clients;
      notes := notes + [Applied(upTo)];
    }

    /** Writes every pair of the store to the snapshot file, in key order; if that is not possible,
        the file stays and the node hears of a failure. */
    method GenerateSnapshot(index: int, term: nat, writable: bool)
      modifies `file, `notes
      ensures writable ==> file.Some? && Lists(file.value, store) && Ascending(file.value)
      ensures writable ==> notes == old(notes) + [SnapshotDone(index, term)]
      ensures !writable ==> file == old(file) && notes == old(notes) + [SnapshotDone(-1, 0)]
    {
      hide Less;
      var entries: Snapshot, keys := [], store.Keys;
      while keys != {}
        invariant keys <= store.Keys && Listed(entries, store, keys) && Ascending(entries)
        invariant forall i, k :: 0 <= i < |entries| && k in keys ==> Less(entries[i].0, k)
        decreases |keys|
        modifies {}
      {
        LeastExists(keys);
        var k :| k in keys && forall l :: l in keys && l != k ==> Less(k, l);
        ListedMore(entries, store, keys, k);
        entries, keys := entries + [(k, store[k])], keys - {k};
      }
      if !writable {
        notes := notes + [SnapshotDone(-1, 0)];
        return;
      }
      file := Some(entries);
      notes := notes + [SnapshotDone(index, term)];
    }

    method InstallSnapshotFromPersist()
      modifies `store
      ensures store == if file.None? then old(store) else Install(file.value, old(store))
    {
      if file.None? {
        return;
      }
      var entries, i := file.value, 0;
      assert entries[0..] == entries;
      while i < |entries|
        invariant 0 <= i <= |entries| && Install(entries[i..], store) == Install(entries, old(store))
        modifies `store
      {
        assert entries[i..][1..] == entries[i + 1..];
        store := store[entries[i].0 := entries[i].1];
        i := i + 1;
      }
    }

    /** A read through the store's index operator: a key that is not there gets an empty value, and an
        empty value counts as not found. */
    method HandleRead(key: string) returns (reply: ReadReply)
      modifies `store
      ensures store == Get(old(store), key)
      ensures reply == if key in old(store) && old(store)[key] != "" then Found(old(store)[key]) else NotFound
    {
      if key !in store {
        store := store[key := ""];
      }
      var value := store[key];
      reply := if value == "" then NotFound else Found(value);
    }
  }

  /** Every key of the store that is not among keys, with its value. */
  ghost predicate Listed(entries: Snapshot, s: Store, keys: set<string>) {
    && (forall i :: 0 <= i < |entries| ==> entries[i].0 in s && s[entries[i].0] == entries[i].1)
    && (forall k :: k in s && k !in keys ==> exists i :: 0 <= i < |entries| && entries[i].0 == k)
  }

  lemma ListedMore(entries: Snapshot, s: Store, keys: set<string>, k: string)
    requires Listed(entries, s, keys) && k in s
    ensures Listed(entries + [(k, s[k])], s, keys - {k})
  {
    var more := entries + [(k, s[k])];
    assert more[|entries|].0 == k;
    assert forall i :: 0 <= i < |entries| ==> more[i] == entries[i];
  }

  lemma AnswersOne(entries: seq<Entry>, clients: seq<Client>, s: Store, i: nat)
    requires i < |entries| == |clients|
    ensures var before := Answers(entries[..i], clients[..i], s);
            Answers(entries[..i + 1], clients[..i + 1], s) ==
              if Waiting(clients[i]) then before + [AnswerTo(entries, clients, s, i)] else before
  {
    assert entries[..i + 1][..i] == entries[..i] && clients[..i + 1][..i] == clients[..i];
    assert entries[..i + 1][i] == entries[i] && clients[..i + 1][i] == clients[i];
  }

  lemma ReplayNone(entries: seq<Entry>, s: Store)
    ensures Replay(entries[..0], s) == s
  {
    assert CommandsOf(entries[..0]) == [];
  }

  lemma ReplayOne(entries: seq<Entry>, i: nat, s: Store)
    requires i < |entries|
    ensures Replay(entries[..i + 1], s) == Commands.Apply(Replay(entries[..i], s), Parse(entries[i].command))
  {
    assert entries[..i + 1] == entries[..i] + [entries[i]];
    ReplayAppend(entries[..i], [entries[i]], s);
    assert CommandsOf([entries[i]]) == [Parse(entries[i].command)];
    RunSingle(Parse(entries[i].command), Replay(entries[..i], s));
  }
}
