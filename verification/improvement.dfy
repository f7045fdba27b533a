/** `improveServer(server)` from api/bot.js: append a timestamped marker
    to every file, re-run the pattern filter, and either skip or replace
    the `files` of every row sharing the server's hash. The source reads
    the clock (`new Date().toISOString()`) once per file; those readings
    are a parameter. */
module Improvement {
  import opened Wrappers
  import opened Moderation
  import opened Records

  const MarkerHead := "\n<!-- Auto-improved at "
  const MarkerTail := " -->"

  /** The line appended to a file whose clock reading is `ts`. */
  function Marker(ts: string): string {
    MarkerHead + ts + MarkerTail
  }

  /** The ISO timestamp each file of one pass receives, by file name. */
  type Stamps = string -> string

  /** The characters `toISOString` can produce. */
  predicate IsIsoTimestamp(ts: string) {
    forall k :: 0 <= k < |ts| ==> ts[k] in "0123456789-+:.TZ"
  }

  /** Every file of `files` gets an ISO-shaped reading. */
  predicate IsoStamps(files: Files, stamps: Stamps) {
    forall name :: name in files ==> IsIsoTimestamp(stamps(name))
  }

  /** The improved copy of the files: same names, each content followed by
      the marker of its own clock reading, and the marker removable again. */
  function AppendMarker(files: Files, stamps: Stamps): (improved: Files)
    ensures improved.Keys == files.Keys
    ensures forall name :: name in files ==> improved[name] == files[name] + Marker(stamps(name))
    ensures forall name :: name in files ==> |improved[name]| > |files[name]|
    ensures StripMarker(improved, stamps) == files
  {
    var improved := map name | name in files :: files[name] + Marker(stamps(name));
    assert forall name :: name in files ==>
             improved[name][..|files[name]|] == files[name]
             && improved[name][|files[name]|..] == Marker(stamps(name));
    improved
  }

  /** Drops the trailing marker of each file's reading where it is present;
      a file not ending in its marker is kept as it is. */
  function StripMarker(files: Files, stamps: Stamps): Files {
    map name | name in files ::
      var v, m := files[name], Marker(stamps(name));
      if |v| >= |m| && v[|v| - |m|..] == m then v[..|v| - |m|] else v
  }

  /** The filter's verdict on one improvement pass: `None` is a skip
      (the improved files are flagged), otherwise the update to issue. */
  function ImproveServer(server: Site, stamps: Stamps): (u: Option<Update>)
    ensures u.None? <==> ModerateContent(AppendMarker(server.files, stamps))
    ensures u.Some? ==> u.value.hash == server.hash
                        && u.value.files == AppendMarker(server.files, stamps)
                        && !ModerateContent(u.value.files)
  {
    var improved := AppendMarker(server.files, stamps);
    if ModerateContent(improved) then None else Some(Update(server.hash, improved))
  }

  /** Under a well-formed timestamp the marker starts with a newline, which
      no pattern contains, and holds neither 'c' nor '('. */
  lemma MarkerAvoidsPatterns(ts: string)
    requires IsIsoTimestamp(ts)
    ensures |Marker(ts)| >= 1 && Marker(ts)[0] == '\n'
    ensures forall p :: p in HarmfulPatterns ==> '\n' !in p
    ensures 'c' !in Marker(ts) && '(' !in Marker(ts)
  {
  }

  /** With well-formed timestamps the markers can neither complete nor
      contain a pattern, so a pass is skipped exactly when the server's
      files were already flagged. */
  lemma SkipIffAlreadyFlagged(server: Site, stamps: Stamps)
    requires IsoStamps(server.files, stamps)
    ensures ImproveServer(server, stamps).None? <==> ModerateContent(server.files)
  {
    var improved := AppendMarker(server.files, stamps);
    forall name | name in server.files
      ensures Harmful(improved[name]) <==> Harmful(server.files[name])
    {
      MarkerAvoidsPatterns(stamps(name));
      HarmfulAfterAppend(server.files[name], Marker(stamps(name)));
    }
  }

  /** One improvement pass against the store. A skip or a rejected write
      leaves it as it was; an accepted clean pass gives every row with the
      server's hash the improved files; no other row and no other field
      changes. */
  function ImproveStep(store: Store, server: Site, stamps: Stamps, accepts: Update -> bool): (store': Store)
    ensures |store'| == |store|
    ensures forall i :: 0 <= i < |store| ==> store'[i].(files := store[i].files) == store[i]
    ensures forall i :: 0 <= i < |store| && store[i].hash != server.hash ==> store'[i] == store[i]
    ensures ModerateContent(AppendMarker(server.files, stamps)) ==> store' == store
    ensures !accepts(Update(server.hash, AppendMarker(server.files, stamps))) ==> store' == store
    ensures var improved := AppendMarker(server.files, stamps);
            !ModerateContent(improved) && accepts(Update(server.hash, improved)) ==>
              forall i :: 0 <= i < |store| && store[i].hash == server.hash ==> store'[i].files == improved
    ensures forall i :: 0 <= i < |store| && store'[i] != store[i] ==>
              store'[i].files == AppendMarker(server.files, stamps) && !ModerateContent(store'[i].files)
  {
    match ImproveServer(server, stamps)
    case None => store
    case Some(u) => TryUpdate(store, u, accepts(u))
  }
}
