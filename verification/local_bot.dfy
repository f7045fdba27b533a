/** The decision flow of `handleCommand(input)` in api/bot.js. Every store
    read the command would issue is an input in `Inputs`, the single
    possible write (the insert of `!createserver`) is an update of the
    store value, and console output is the `Reply`. */
module LocalBot {
  import opened Wrappers
  import opened Text
  import opened Moderation
  import opened Records
  import opened Fingerprint
  import opened Templates
  import opened Dedup

  /** What the command reports. */
  datatype Reply =
    | Pong
    | SiteNotFound
    | SiteStatus(name: string, flagged: bool, duplicate: bool)
    | CreationAborted
    | AlreadyExists
    | InsertFailed
    | ServerCreated(hash: string, fileNames: set<string>)
    | ListFailed(message: string)
    | NoServers
    | ServerList(entries: seq<(string, string)>)
    | UnknownCommand

  /** The clock readings, the random integer and the store's answers
      that one command may consume. */
  datatype Inputs = Inputs(
    hashMs: nat,            // Date.now() inside generateServerHash
    rand: RandomTag,        // Math.floor(Math.random() * 10000)
    nameMs: nat,            // Date.now() for the row's name
    createdMs: int,         // new Date() for created_at
    siteRead: Fetch<Site>,  // select by id, .single()
    dupRead: Fetch<seq<Site>>,
    listRead: Fetch<seq<Site>>,
    insertOk: bool)

  /** `!checksite`: not found on an error or no row; otherwise the row's
      name, the filter's verdict on its files and the fail-open dedup
      verdict on its hash. */
  function CheckSite(io: Inputs): (reply: Reply)
    ensures !io.siteRead.Fetched? || io.siteRead.data.None? <==> reply == SiteNotFound
    ensures io.siteRead.Fetched? && io.siteRead.data.Some? ==> reply.SiteStatus?
    ensures reply.SiteStatus? ==>
              var site := io.siteRead.data.value;
              reply.name == site.name
              && (reply.flagged <==> AnyFileHarmful(site.files))
              && (reply.duplicate <==> io.dupRead.Fetched? && io.dupRead.data.Some? && io.dupRead.data.value != [])
  {
    match io.siteRead
    case FetchError(_) => SiteNotFound
    case Fetched(None) => SiteNotFound
    case Fetched(Some(site)) =>
      SiteStatus(site.name, ModerateContent(site.files), CheckDuplicate(io.dupRead))
  }

  /** The row `!createserver` inserts. */
  function NewServer(description: string, files: Files, hash: string, io: Inputs): Site {
    Site("Server_" + ShowNat(io.nameMs), description, files, hash, io.createdMs, None)
  }

  /** `!createserver <description>`: flagged files abort before the dedup
      query and the insert; a reported duplicate aborts before the insert;
      only a successful insert adds a row, carrying the description, the
      generated page and a `srv_` identifier. */
  function CreateServer(description: string, io: Inputs, store: Store): (out: (Reply, Store))
    ensures out.0.CreationAborted? <==> ModerateContent(GenerateDefaultFiles(description))
    ensures out.0.AlreadyExists? <==>
              !ModerateContent(GenerateDefaultFiles(description)) && CheckDuplicate(io.dupRead)
    ensures out.0.ServerCreated? <==>
              !ModerateContent(GenerateDefaultFiles(description)) && !CheckDuplicate(io.dupRead) && io.insertOk
    ensures !ModerateContent(GenerateDefaultFiles(description)) && !CheckDuplicate(io.dupRead) && !io.insertOk ==>
              out.0 == InsertFailed
    ensures !out.0.ServerCreated? ==> out.1 == store
    ensures out.0.ServerCreated? ==>
              |out.1| == |store| + 1 && out.1[..|store|] == store
              && var row := out.1[|store|];
              && row.name == "Server_" + ShowNat(io.nameMs)
              && row.description == description
              && row.files == GenerateDefaultFiles(description)
              && row.createdAt == io.createdMs
              && row.files.Keys == {DefaultFileName} == out.0.fileNames
              && IsSubstring(description, row.files[DefaultFileName])
              && !AnyFileHarmful(row.files)
              && row.hash == out.0.hash
              && ParseHash(row.hash) == Some(Parts(ServerTag, io.hashMs, io.rand))
              && row.apiKey.None?
  {
    var hash := GenerateServerHash(io.hashMs, io.rand);
    var files := GenerateDefaultFiles(description);
    if ModerateContent(files) then (CreationAborted, store)
    else if CheckDuplicate(io.dupRead) then (AlreadyExists, store)
    else
      var row := NewServer(description, files, hash, io);
      var store' := TryInsert(store, row, io.insertOk);
      assert io.insertOk ==> store'[..|store|] == store && store'[|store|] == row;
      if io.insertOk then (ServerCreated(hash, files.Keys), store') else (InsertFailed, store')
  }

  /** `!listservers`: one (name, hash) entry per returned row, in order;
      an error or an empty or `null` result produces no list. */
  function ListServers(read: Fetch<seq<Site>>): (reply: Reply)
    ensures reply.ServerList? <==> read.Fetched? && read.data.Some? && read.data.value != []
    ensures read.FetchError? ==> reply == ListFailed(read.message)
    ensures read == Fetched(None) || read == Fetched(Some([])) ==> reply == NoServers
    ensures reply.ServerList? ==>
              |reply.entries| == |read.data.value|
              && forall i :: 0 <= i < |reply.entries| ==>
                   reply.entries[i] == (read.data.value[i].name, read.data.value[i].hash)
  {
    match read
    case FetchError(message) => ListFailed(message)
    case Fetched(None) => NoServers
    case Fetched(Some(rows)) =>
      if rows == [] then NoServers
      else ServerList(seq(|rows|, i requires 0 <= i < |rows| => (rows[i].name, rows[i].hash)))
  }

  /** The command words `handleCommand` knows. */
  const Commands: set<string> := {"!ping", "!checksite", "!createserver", "!listservers"}

  /** `handleCommand(input)`: the first space-separated word picks the
      command; only `!createserver` can change the store. */
  function HandleCommand(input: string, io: Inputs, store: Store): (out: (Reply, Store))
    ensures out.1 != store ==> Split(input, ' ')[0] == "!createserver" && out.0.ServerCreated?
    ensures Split(input, ' ')[0] == "!ping" ==> out == (Pong, store)
    ensures Split(input, ' ')[0] == "!checksite" ==> out == (CheckSite(io), store)
    ensures Split(input, ' ')[0] == "!listservers" ==> out == (ListServers(io.listRead), store)
    ensures out.0 == UnknownCommand <==> Split(input, ' ')[0] !in Commands
  {
    var words := Split(input, ' ');
    var command := words[0];
    if command == "!ping" then (Pong, store)
    else if command == "!checksite" then (CheckSite(io), store)
    else if command == "!createserver" then CreateServer(Join(words[1..], " "), io, store)
    else if command == "!listservers" then (ListServers(io.listRead), store)
    else (UnknownCommand, store)
  }

  /** The description `!createserver` uses is the whole rest of the line
      after the first space, spaces included. */
  lemma CreateServerTakesRestOfLine(description: string, io: Inputs, store: Store)
    ensures HandleCommand("!createserver " + description, io, store) == CreateServer(description, io, store)
  {
    var command := "!createserver";
    assert ' ' !in command;
    assert "!createserver " + description == command + [' '] + description;
    SplitAtFirst(command, description, ' ');
    JoinSplit(description, ' ');
  }

  /** With nothing after the command word the description is empty. */
  lemma CreateServerWithoutArguments(io: Inputs, store: Store)
    ensures HandleCommand("!createserver", io, store) == CreateServer("", io, store)
  {
    SplitWithoutSeparator("!createserver", ' ');
  }

  /** A description carrying a denylisted pattern is rejected and nothing
      is written, whatever the dedup query or the store would answer. */
  lemma HarmfulDescriptionAborts(description: string, io: Inputs, store: Store)
    requires Harmful(description)
    ensures CreateServer(description, io, store) == (CreationAborted, store)
  {
    var files := GenerateDefaultFiles(description);
    HarmfulFileFlags(files, DefaultFileName, description);
  }

  /** Creation is aborted by the filter exactly when the description
      itself holds a denylisted pattern. */
  lemma AbortedIffDescriptionHarmful(description: string, io: Inputs, store: Store)
    ensures CreateServer(description, io, store).0.CreationAborted? <==> Harmful(description)
  {
    PageFlaggedIffDescriptionHarmful(description);
  }

  /** "Hello World" holds no denylisted pattern. */
  lemma HelloWorldHarmless()
    ensures !Harmful("Hello World")
  {
    MissingChar(HarmfulPatterns[0], "Hello World", 'c');
    MissingChar(HarmfulPatterns[1], "Hello World", '(');
    MissingChar(HarmfulPatterns[2], "Hello World", 'c');
  }

  /** A harmless description against a healthy store that does not yet
      hold the fresh identifier, with the insert accepted, creates the
      server. */
  lemma HarmlessDescriptionCreated(description: string, io: Inputs, store: Store)
    requires !Harmful(description)
    requires io.dupRead == ReadByHash(store, GenerateServerHash(io.hashMs, io.rand))
    requires forall i :: 0 <= i < |store| ==> store[i].hash != GenerateServerHash(io.hashMs, io.rand)
    requires io.insertOk
    ensures var out := CreateServer(description, io, store);
            out.0.ServerCreated? && |out.1| == |store| + 1 && out.1[..|store|] == store
            && out.1[|store|].description == description
  {
    PageFlaggedIffDescriptionHarmful(description);
    DuplicateIffHashStored(store, GenerateServerHash(io.hashMs, io.rand));
  }

  /** The command line `!createserver Hello World`, under the same
      conditions, creates a server described as "Hello World". */
  lemma HelloWorldCreated(io: Inputs, store: Store)
    requires io.dupRead == ReadByHash(store, GenerateServerHash(io.hashMs, io.rand))
    requires forall i :: 0 <= i < |store| ==> store[i].hash != GenerateServerHash(io.hashMs, io.rand)
    requires io.insertOk
    ensures var out := HandleCommand("!createserver " + "Hello World", io, store);
            out.0.ServerCreated? && |out.1| == |store| + 1 && out.1[|store|].description == "Hello World"
  {
    HelloWorldHarmless();
    HarmlessDescriptionCreated("Hello World", io, store);
    CreateServerTakesRestOfLine("Hello World", io, store);
  }

  /** Against a healthy store, `!createserver` reports a duplicate only for
      an exact collision of the freshly generated identifier. */
  lemma DuplicateMeansIdentifierCollision(description: string, io: Inputs, store: Store)
    requires io.dupRead == ReadByHash(store, GenerateServerHash(io.hashMs, io.rand))
    requires !ModerateContent(GenerateDefaultFiles(description))
    ensures CreateServer(description, io, store).0.AlreadyExists? <==>
              exists i :: 0 <= i < |store| && store[i].hash == GenerateServerHash(io.hashMs, io.rand)
  {
    DuplicateIffHashStored(store, GenerateServerHash(io.hashMs, io.rand));
  }

  /** `!checksite` queries the dedup check with the site's own hash, so
      against a healthy store holding that site it always reports a
      duplicate. */
  lemma CheckSiteSeesItself(io: Inputs, store: Store)
    requires io.siteRead.Fetched? && io.siteRead.data.Some?
    requires io.siteRead.data.value in store
    requires io.dupRead == ReadByHash(store, io.siteRead.data.value.hash)
    ensures CheckSite(io).SiteStatus? && CheckSite(io).duplicate
  {
  }
}
