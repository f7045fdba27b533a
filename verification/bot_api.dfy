/** The serverless side of api/overpoweredbot.js: `createBot` and the
    `handler` that dispatches on the query's `action`. Responses are a
    status code and an abstract payload; a call that would throw (mapping
    over a `null` result) is `Uncaught`. */
module BotApi {
  import opened Wrappers
  import opened Text
  import opened Hex
  import opened Moderation
  import opened Records
  import opened Fingerprint
  import opened Templates

  /** The clock readings, the randomness and the store's answers that one
      request may consume. */
  datatype Inputs = Inputs(
    hashMs: nat,            // Date.now() for the hash
    rand: RandomTag,        // Math.floor(Math.random() * 10000)
    keyBytes: KeyBytes,     // crypto.randomBytes(16)
    nameMs: nat,            // Date.now() for the row's name
    createdMs: int,         // new Date() for created_at
    listRead: Fetch<seq<Site>>,
    botRead: Fetch<Site>,   // select by hash, .single()
    insertOk: bool)

  /** What `createBot` logs. */
  datatype Creation = Aborted | InsertFailed | Created(hash: string, apiKey: string)

  /** The row `createBot` inserts. */
  function NewBot(description: string, files: Files, hash: string, apiKey: string, io: Inputs): Site {
    Site("Bot_" + ShowNat(io.nameMs), description, files, hash, io.createdMs, Some(apiKey))
  }

  /** `createBot(description)`: flagged files abort with no insert (there
      is no dedup query on this path); an accepted insert adds one row
      whose key is the one embedded in its bot.js and whose identifier is
      `bot_<ms>_<r>`. */
  function CreateBot(description: string, io: Inputs, store: Store): (out: (Creation, Store))
    ensures out.0.Aborted? <==>
              ModerateContent(GenerateUserFiles(description, GenerateAPIKey(io.keyBytes)))
    ensures out.0.Created? <==> !out.0.Aborted? && io.insertOk
    ensures !out.0.Created? ==> out.1 == store
    ensures out.0.Created? ==>
              |out.1| == |store| + 1 && out.1[..|store|] == store
              && var row := out.1[|store|];
              && row.name == "Bot_" + ShowNat(io.nameMs)
              && row.description == description
              && row.createdAt == io.createdMs
              && out.0.apiKey == GenerateAPIKey(io.keyBytes)
              && row.files == GenerateUserFiles(description, out.0.apiKey)
              && ScriptParts(row.files[BotFileName], 32) == Some((out.0.apiKey, description))
              && row.files.Keys == {BotFileName}
              && IsSubstring(description, row.files[BotFileName])
              && !AnyFileHarmful(row.files)
              && row.apiKey == Some(out.0.apiKey)
              && IsSubstring(out.0.apiKey, row.files[BotFileName])
              && HexDecode(out.0.apiKey) == Some(io.keyBytes)
              && row.hash == out.0.hash
              && ParseHash(row.hash) == Some(Parts(BotTag, io.hashMs, io.rand))
  {
    var hash := GenerateBotHash(io.hashMs, io.rand);
    var apiKey := GenerateAPIKey(io.keyBytes);
    var files := GenerateUserFiles(description, apiKey);
    if ModerateContent(files) then (Aborted, store)
    else
      var row := NewBot(description, files, hash, apiKey, io);
      var store' := TryInsert(store, row, io.insertOk);
      assert io.insertOk ==> store'[..|store|] == store && store'[|store|] == row;
      if io.insertOk then (Created(hash, apiKey), store') else (InsertFailed, store')
  }

  const NoBotFile := "// No bot file"

  /** `files['bot.js'] || '// No bot file'`: the script when present and
      non-empty, the placeholder otherwise; never empty. */
  function BotFile(files: Files): (file: string)
    ensures BotFileName in files && files[BotFileName] != "" ==> file == files[BotFileName]
    ensures BotFileName !in files || files[BotFileName] == "" ==> file == NoBotFile
    ensures file != ""
  {
    if BotFileName in files && files[BotFileName] != "" then files[BotFileName] else NoBotFile
  }

  /** A query parameter; absent parameters are `None`. */
  datatype Request = Request(action: Option<string>, description: Option<string>, id: Option<string>)

  /** JavaScript truthiness of a query string value. */
  predicate Truthy(v: Option<string>) {
    v.Some? && v.value != ""
  }

  /** One entry of the `listbots` answer. */
  datatype BotView = BotView(name: string, description: string, hash: string, apiKey: Option<string>, botFile: string)

  function View(bot: Site): BotView {
    BotView(bot.name, bot.description, bot.hash, bot.apiKey, BotFile(bot.files))
  }

  datatype Payload =
    | BotList(bots: seq<BotView>)
    | BotDetail(bot: Site, botFile: string)
    | Message(text: string)
    | ErrorText(text: string)

  datatype Outcome = Respond(status: int, payload: Payload) | Uncaught

  /** The requests `handler` serves; every other request is a 400. */
  predicate Recognised(req: Request) {
    || req.action == Some("listbots")
    || (req.action == Some("getbot") && Truthy(req.id))
    || (req.action == Some("createbot") && Truthy(req.description))
  }

  /** `handler(req, res)`: dispatch on `action` together with its required
      parameter. Only `createbot` can change the store, and it answers 200
      whether or not the bot was actually created. */
  function Handler(req: Request, io: Inputs, store: Store): (out: (Outcome, Store))
    ensures out.0 == Respond(400, ErrorText("Invalid action")) <==> !Recognised(req)
    ensures out.1 != store ==> req.action == Some("createbot") && Truthy(req.description)
    ensures req.action == Some("createbot") && Truthy(req.description) ==>
              out == (Respond(200, Message("Bot created (check Supabase)")),
                      CreateBot(req.description.value, io, store).1)
    ensures req.action == Some("listbots") && out.0.Respond? && out.0.status == 200 ==>
              io.listRead.Fetched? && io.listRead.data.Some?
              && var rows := io.listRead.data.value;
              && out.0.payload.BotList? && |out.0.payload.bots| == |rows|
              && forall i :: 0 <= i < |rows| ==>
                   out.0.payload.bots[i].name == rows[i].name
                   && out.0.payload.bots[i].description == rows[i].description
                   && out.0.payload.bots[i].hash == rows[i].hash
                   && out.0.payload.bots[i].apiKey == rows[i].apiKey
                   && out.0.payload.bots[i].botFile == BotFile(rows[i].files)
    ensures req.action == Some("listbots") && io.listRead.FetchError? ==>
              out.0 == Respond(500, ErrorText(io.listRead.message))
    ensures req.action == Some("listbots") && io.listRead.Fetched? && io.listRead.data.Some? ==>
              out.0.Respond? && out.0.status == 200
    ensures req.action == Some("getbot") && Truthy(req.id) ==>
              (out.0 == Respond(404, ErrorText("Bot not found")) <==> !io.botRead.Fetched? || io.botRead.data.None?)
    ensures req.action == Some("getbot") && Truthy(req.id) && io.botRead.Fetched? && io.botRead.data.Some? ==>
              var bot := io.botRead.data.value;
              out.0 == Respond(200, BotDetail(bot, BotFile(bot.files)))
    ensures out.0.Uncaught? <==> req.action == Some("listbots") && io.listRead == Fetched(None)
  {
    if req.action == Some("listbots") then
      match io.listRead
      case FetchError(message) => (Respond(500, ErrorText(message)), store)
      case Fetched(None) => (Uncaught, store)
      case Fetched(Some(rows)) =>
        (Respond(200, BotList(seq(|rows|, i requires 0 <= i < |rows| => View(rows[i])))), store)
    else if req.action == Some("getbot") && Truthy(req.id) then
      match io.botRead
      case FetchError(_) => (Respond(404, ErrorText("Bot not found")), store)
      case Fetched(None) => (Respond(404, ErrorText("Bot not found")), store)
      case Fetched(Some(bot)) => (Respond(200, BotDetail(bot, BotFile(bot.files))), store)
    else if req.action == Some("createbot") && Truthy(req.description) then
      (Respond(200, Message("Bot created (check Supabase)")), CreateBot(req.description.value, io, store).1)
    else (Respond(400, ErrorText("Invalid action")), store)
  }

  /** A description carrying a denylisted pattern never reaches the store,
      yet the request still answers 200. */
  lemma HarmfulBotRejectedSilently(description: string, io: Inputs, store: Store)
    requires Harmful(description)
    ensures CreateBot(description, io, store) == (Aborted, store)
    ensures Handler(Request(Some("createbot"), Some(description), None), io, store)
            == (Respond(200, Message("Bot created (check Supabase)")), store)
  {
    var files := GenerateUserFiles(description, GenerateAPIKey(io.keyBytes));
    HarmfulFileFlags(files, BotFileName, description);
    assert description != "" by {
      var p :| p in HarmfulPatterns && IsSubstring(p, description);
      var i :| OccursAt(p, description, i);
    }
  }
}
