/** The two content generators: `generateDefaultFiles` (api/bot.js) and
    `generateUserFiles` (api/overpoweredbot.js). Each builds a one-file map
    from a fixed template with the caller's text spliced in verbatim, and
    does no validation of its own. */
module Templates {
  import opened Wrappers
  import opened Text
  import opened Moderation

  const DefaultFileName := "index.hsx"
  const BotFileName := "bot.js"

  // Fixed pieces of the server page, around the three copies of the description.
  const PageHead := "<!-- Auto-generated server -->\n<!-- Description: "
  const PageTitle := " -->\n<html>\n<head><title>"
  const PageHeading := "</title></head>\n<body>\n<h1>"
  const PageTail := "</h1>\n</body>\n</html>"

  /** Total length of the fixed pieces of the server page. */
  const PageFixedLength := |PageHead| + |PageTitle| + |PageHeading| + |PageTail|

  function DefaultPage(description: string): string {
    PageHead + description + PageTitle + description + PageHeading + description + PageTail
  }

  /** `generateDefaultFiles(description)`: exactly one file, "index.hsx",
      whose content holds the description verbatim and gives it back to
      `PageDescription`. */
  function GenerateDefaultFiles(description: string): (files: Files)
    ensures files.Keys == {DefaultFileName}
    ensures IsSubstring(description, files[DefaultFileName])
    ensures PageDescription(files[DefaultFileName]) == Some(description)
  {
    var page := DefaultPage(description);
    OccursInMiddle(PageHead, description,
                   PageTitle + description + PageHeading + description + PageTail);
    assert page == PageHead + description
                   + (PageTitle + description + PageHeading + description + PageTail);
    ReadBackDefaultPage(description);
    map[DefaultFileName := page]
  }

  /** Reads the description back out of a server page; any text not
      produced by the template is rejected. */
  function PageDescription(page: string): Option<string> {
    if |page| < PageFixedLength || (|page| - PageFixedLength) % 3 != 0 then None
    else
      var n := (|page| - PageFixedLength) / 3;
      var d := page[|PageHead|..|PageHead| + n];
      if page == DefaultPage(d) then Some(d) else None
  }

  lemma ReadBackDefaultPage(description: string)
    ensures PageDescription(DefaultPage(description)) == Some(description)
  {
    var page := DefaultPage(description);
    assert |page| == PageFixedLength + 3 * |description|;
    assert page[|PageHead|..|PageHead| + |description|] == description;
  }

  /** The fixed text of the server page once more, cut at walls: characters
      that no denylisted pattern contains (' ', 'd', '/', '1'). Cutting the
      page there leaves these four fixed texts, the bare description, and
      the description wrapped as `><title>…<` or `>…<`; `PageCut` proves
      the cut page equals `DefaultPage`. `HeadText` is written as short
      literals so the verifier can see which characters it lacks. */
  const HeadText := "<!-- Auto-" + "generated " + "server -->" + "\n<!-- " + "Description:"
  const TitleText := "-->\n<html>\n<hea"
  const HeadingText := "title></head>\n<body>\n<h"
  const TailText := "h1>\n</body>\n</html>"

  lemma PageCut(d: string)
    ensures DefaultPage(d)
            == HeadText + [' '] + (d + [' '] + (TitleText + ['d'] + (("><title>" + d + "<") + ['/']
               + (HeadingText + ['1'] + ((">" + d + "<") + ['/'] + TailText)))))
  {
    HeadCut();
    TitleCut();
    HeadingCut();
    TailCut();
    Regroup(HeadText, [' '], d, TitleText, ['d'], "><title>", "<", ['/'], HeadingText, ['1'], ">", TailText);
  }

  /** Re-associates the pieces of the page around the walls. */
  lemma Regroup(h: string, sp: string, d: string, t: string, dd: string, tt: string, lt: string,
                sl: string, g: string, one: string, gt: string, tl: string)
    ensures (h + sp) + d + (sp + t + dd + tt) + d + (lt + sl + g + one + gt) + d + (lt + sl + tl)
            == h + sp + (d + sp + (t + dd + ((tt + d + lt) + sl + (g + one + ((gt + d + lt) + sl + tl)))))
  {
  }

  lemma HeadCut() ensures PageHead == HeadText + [' '] {}
  lemma TitleCut() ensures PageTitle == [' '] + TitleText + ['d'] + "><title>" {}
  lemma HeadingCut() ensures PageHeading == "<" + ['/'] + HeadingText + ['1'] + ">" {}
  lemma TailCut() ensures PageTail == "<" + ['/'] + TailText {}

  /** A pattern that avoids the wall characters, is absent from the fixed
      text and cannot straddle either wrapper occurs in the page only
      inside the description. */
  lemma PageOccurrenceInDescription(p: string, d: string)
    requires |p| >= 2 && ' ' !in p && 'd' !in p && '/' !in p && '1' !in p
    requires !IsSubstring(p, HeadText) && !IsSubstring(p, TitleText)
    requires !IsSubstring(p, HeadingText) && !IsSubstring(p, TailText)
    requires forall j :: 0 <= j < |"><title>"| && "><title>"[j] == p[0] ==>
               j + 1 < |"><title>"| && "><title>"[j + 1] != p[1]
    requires p[|p| - 1] != '<' && p[0] != '>'
    ensures IsSubstring(p, DefaultPage(d)) ==> IsSubstring(p, d)
  {
    PageCut(d);
    var s5 := (">" + d + "<") + ['/'] + TailText;
    var s4 := HeadingText + ['1'] + s5;
    var s3 := ("><title>" + d + "<") + ['/'] + s4;
    var s2 := TitleText + ['d'] + s3;
    var s1 := d + [' '] + s2;
    Barrier(p, HeadText, ' ', s1);
    Barrier(p, d, ' ', s2);
    Barrier(p, TitleText, 'd', s3);
    Barrier(p, "><title>" + d + "<", '/', s4);
    Barrier(p, HeadingText, '1', s5);
    Barrier(p, ">" + d + "<", '/', TailText);
    Enclosed(p, "><title>", d, "<");
    Enclosed(p, ">", d, "<");
  }

  lemma ScriptPatternOutsideTemplate(d: string)
    requires !IsSubstring(HarmfulPatterns[0], d)
    ensures !IsSubstring(HarmfulPatterns[0], DefaultPage(d))
  {
    var p := HarmfulPatterns[0];
    MissingChar(p, HeadText, 'l');
    MissingChar(p, TitleText, 'c');
    MissingChar(p, HeadingText, 'c');
    MissingChar(p, TailText, 'c');
    PageOccurrenceInDescription(p, d);
  }

  lemma EvalPatternOutsideTemplate(d: string)
    requires !IsSubstring(HarmfulPatterns[1], d)
    ensures !IsSubstring(HarmfulPatterns[1], DefaultPage(d))
  {
    var p := HarmfulPatterns[1];
    MissingChar(p, HeadText, '(');
    MissingChar(p, TitleText, '(');
    MissingChar(p, HeadingText, '(');
    MissingChar(p, TailText, '(');
    PageOccurrenceInDescription(p, d);
  }

  lemma MaliciousPatternOutsideTemplate(d: string)
    requires !IsSubstring(HarmfulPatterns[2], d)
    ensures !IsSubstring(HarmfulPatterns[2], DefaultPage(d))
  {
    var p := HarmfulPatterns[2];
    MissingChar(p, HeadText, 'm');
    MissingChar(p, TitleText, 'c');
    MissingChar(p, HeadingText, 'c');
    MissingChar(p, TailText, 'c');
    PageOccurrenceInDescription(p, d);
  }

  /** `generateDefaultFiles` flags a page exactly when the description
      itself holds a denylisted pattern: the fixed template text adds none. */
  lemma PageFlaggedIffDescriptionHarmful(d: string)
    ensures ModerateContent(GenerateDefaultFiles(d)) <==> Harmful(d)
  {
    var files := GenerateDefaultFiles(d);
    if Harmful(d) {
      HarmfulFileFlags(files, DefaultFileName, d);
    } else {
      ScriptPatternOutsideTemplate(d);
      EvalPatternOutsideTemplate(d);
      MaliciousPatternOutsideTemplate(d);
      assert !Harmful(files[DefaultFileName]);
    }
  }

  // Fixed pieces of the bot script, around the API key and the description.
  const ScriptHead := "// Auto-generated bot\nconst API_KEY = \""
  const ScriptMiddle := "\";\nconst description = \""
  const ScriptTail := "\";\n\nfunction respond(message) {\n  return \"You said: '\" + message + \"'. \" + description;\n}\n\nprocess.stdin.on('data', (data) => {\n  const msg = data.toString().trim();\n  console.log(\"[Bot Reply]: \" + respond(msg));\n});\n\nconsole.log(\"Bot is ready!\");"

  function BotScript(description: string, apiKey: string): string {
    ScriptHead + apiKey + ScriptMiddle + description + ScriptTail
  }

  /** `generateUserFiles(description, apiKey)`: exactly one file, "bot.js",
      whose content holds both the key and the description verbatim. */
  function GenerateUserFiles(description: string, apiKey: string): (files: Files)
    ensures files.Keys == {BotFileName}
    ensures IsSubstring(apiKey, files[BotFileName])
    ensures IsSubstring(description, files[BotFileName])
    ensures ScriptParts(files[BotFileName], |apiKey|) == Some((apiKey, description))
  {
    var script := BotScript(description, apiKey);
    ReadBackBotScript(description, apiKey);
    OccursInMiddle(ScriptHead, apiKey, ScriptMiddle + description + ScriptTail);
    OccursInMiddle(ScriptHead + apiKey + ScriptMiddle, description, ScriptTail);
    assert script == ScriptHead + apiKey + (ScriptMiddle + description + ScriptTail);
    map[BotFileName := script]
  }

  /** Reads the key (of the given length) and the description back out of
      a bot script; any text not produced by the template is rejected. */
  function ScriptParts(script: string, keyLength: nat): Option<(string, string)> {
    var fixed := |ScriptHead| + keyLength + |ScriptMiddle| + |ScriptTail|;
    if |script| < fixed then None
    else
      var key := script[|ScriptHead|..|ScriptHead| + keyLength];
      var d := script[|ScriptHead| + keyLength + |ScriptMiddle|..|script| - |ScriptTail|];
      if script == BotScript(d, key) then Some((key, d)) else None
  }

  /** Knowing the key's length, the script gives back both spliced values. */
  lemma ReadBackBotScript(description: string, apiKey: string)
    ensures ScriptParts(BotScript(description, apiKey), |apiKey|) == Some((apiKey, description))
  {
    var script := BotScript(description, apiKey);
    var k := |ScriptHead| + |apiKey| + |ScriptMiddle|;
    assert script[|ScriptHead|..|ScriptHead| + |apiKey|] == apiKey;
    assert script[k..|script| - |ScriptTail|] == description;
  }
}
