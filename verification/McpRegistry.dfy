/** The entry of this program in a platform's JSON registry file (cli/src/platforms/mod.rs), and what a rollback makes
    of that file. */
module McpRegistry {
  import opened Sequences
  import opened Rollback

  /** A JSON value, with the numbers, truth values and null in `S`; the keys of an object have no order of their own. */
  datatype Json<S> =
    | Object(fields: map<string, Json<S>>) | Array(items: seq<Json<S>>) | Text(text: string) | Scalar(scalar: S)

  const SERVERS := "mcpServers"
  const NAME := "mneme"

  function Entry<S>(): Json<S> {
    Object(map[
      "command" := Text("mneme"), "args" := Array([Text("mcp"), Text("stdio")]),
      "env" := Object(map["MNEME_LOG" := Text("info")]), "transport" := Text("stdio")])
  }

  /** Reading, with a byte-order mark allowed; pretty printing, with a newline at the end; and texts that are only
      white space. */
  datatype Format<!S> = Format(parse: Content -> Option<Json<S>>, write: Json<S> -> Content, blank: Content -> bool)

  ghost predicate Lawful<S(!new)>(f: Format<S>) {
    forall j :: f.parse(f.write(j)) == Some(j) && !f.blank(f.write(j))
  }

  // ----- taking the entry in and out -----

  /** The servers listed, none if there is no such field; `None` when the file has another shape. */
  function Servers<S>(v: Json<S>): Option<map<string, Json<S>>> {
    if !v.Object? then None
    else if SERVERS !in v.fields then Some(map[])
    else if v.fields[SERVERS].Object? then Some(v.fields[SERVERS].fields)
    else None
  }

  function WithServers<S>(v: Json<S>, servers: map<string, Json<S>>): Json<S>
    requires v.Object?
  {
    v.(fields := v.fields[SERVERS := Object(servers)])
  }

  function Merged<S>(v: Json<S>): Option<Json<S>> {
    match Servers(v)
    case None => None
    case Some(servers) => Some(WithServers(v, servers[NAME := Entry()]))
  }

  function WithoutEntry<S>(v: Json<S>): Json<S> {
    if v.Object? && SERVERS in v.fields && v.fields[SERVERS].Object?
    then WithServers(v, v.fields[SERVERS].fields - {NAME})
    else v
  }

  function ReadOrEmpty<S>(f: Format<S>, c: Content): Option<Json<S>> {
    if f.blank(c) then Some(Object(map[])) else f.parse(c)
  }

  /** `merge_mcp_json_object`. */
  function MergeText<S>(f: Format<S>, c: Content): Option<Content> {
    match ReadOrEmpty(f, c)
    case None => None
    case Some(v) => match Merged(v) case None => None case Some(m) => Some(f.write(m))
  }

  /** `strip_mcp_json_object`. */
  function StripText<S>(f: Format<S>, c: Content): Option<Content> {
    match f.parse(c) case None => None case Some(v) => Some(f.write(WithoutEntry(v)))
  }

  /** A list of servers without the entry. */
  predicate Clean<S>(v: Json<S>) {
    v.Object? && SERVERS in v.fields && v.fields[SERVERS].Object? && NAME !in v.fields[SERVERS].fields
  }

  lemma MergedHasEntry<S>(v: Json<S>, m: Json<S>)
    requires Merged(v) == Some(m)
    ensures Servers(m).Some? && Servers(m).value == Servers(v).value[NAME := Entry()] && WithoutEntry(m) != m
  {
    assert NAME in m.fields[SERVERS].fields && NAME !in WithoutEntry(m).fields[SERVERS].fields;
  }

  /** Taking the entry out again leaves everything else, and a list of servers even where there was none. */
  lemma StrippedIs<S>(v: Json<S>, m: Json<S>)
    requires Merged(v) == Some(m)
    ensures WithoutEntry(m) == WithServers(v, Servers(v).value - {NAME}) && Clean(WithoutEntry(m))
    ensures WithoutEntry(m) == v <==> Clean(v)
  {
    var servers := Servers(v).value;
    assert servers[NAME := Entry()] - {NAME} == servers - {NAME};
    var s := WithServers(v, servers - {NAME});
    assert m.fields[SERVERS := Object(servers - {NAME})] == s.fields;
    if Clean(v) {
      assert servers - {NAME} == servers;
      assert v.fields[SERVERS := Object(servers)] == v.fields;
    }
  }

  /** The file is as it would be printed, and lists servers but not this one. */
  ghost predicate Tidy<S>(f: Format<S>, c: Content) {
    f.parse(c).Some? && f.write(f.parse(c).value) == c && Clean(f.parse(c).value)
  }

  /** The text that is left when the entry is merged in and taken out again. */
  ghost function Residue<S>(f: Format<S>, c: Content): Content
    requires MergeText(f, c).Some?
  {
    var v := ReadOrEmpty(f, c).value;
    f.write(WithServers(v, Servers(v).value - {NAME}))
  }

  lemma ResidueIs<S(!new)>(f: Format<S>, c: Content)
    requires Lawful(f) && MergeText(f, c).Some?
    ensures StripText(f, MergeText(f, c).value) == Some(Residue(f, c))
    ensures Residue(f, c) != MergeText(f, c).value
    ensures Residue(f, c) == c <==> Tidy(f, c)
  {
    var v := ReadOrEmpty(f, c).value;
    var m := Merged(v).value;
    var s := WithoutEntry(m);
    StrippedIs(v, m);
    MergedHasEntry(v, m);
    assert f.parse(f.write(m)) == Some(m) && f.parse(f.write(s)) == Some(s) && !f.blank(f.write(s));
    if Tidy(f, c) {
      assert f.parse(f.write(v)) == Some(v) && !f.blank(f.write(f.parse(c).value));
    }
  }

  // ----- rolling back an install nobody edited -----

  /** The platform's registry file is of this format. */
  ghost predicate Strips<S>(w: World, f: Format<S>, platform: string) {
    forall c :: w.strip(platform, c) == StripText(f, c)
  }

  lemma OneStep(w: World, files: Files, a: Action, p: Path, before: Option<Content>, after: Option<Content>)
    requires Targets(a, p) && RecordsStep(w, files, a, before, after)
    requires a.FileModified? ==> a.backup != p
    ensures History(w, files, [a], p, [before, after]) && Undisturbed(w, [a], p)
  {
    assert [a][..0] == [] && [before, after][..1] == [before];
    assert History(w, files, [], p, [before]);
  }

  lemma RegistryResult<S(!new)>(
    w: World, f: Format<S>, files: Files, a: Action, platform: string, host: Path, before: Option<Content>,
    start: Content)
    requires Faithful(w) && Lawful(f) && Strips(w, f, platform) && MergeText(f, start).Some?
    requires Lookup(files, w.registry(platform)) == MergeText(f, start) && Targets(a, w.registry(platform))
    requires RecordsStep(w, files, a, before, MergeText(f, start))
    requires a.FileModified? ==> a.backup != w.registry(platform)
    ensures
      var result := Lookup(RolledBack(w, files, [a, McpRegistered(platform, host)]), w.registry(platform));
      result == if before == Some(Residue(f, start)) then before else Some(Residue(f, start))
  {
    var p, merged := w.registry(platform), MergeText(f, start);
    OneStep(w, files, a, p, before, merged);
    RegistryUndoneIff(w, files, [a], platform, host, [before, merged]);
    ResidueIs(f, start);
    assert w.strip(platform, merged.value) == StripText(f, merged.value);
    assert [a] + [McpRegistered(platform, host)] == [a, McpRegistered(platform, host)];
  }

  /** A registry file that was there before is restored if and only if it was tidy: printed as this program prints,
      with a list of servers that lacks the entry.  Otherwise the file ends as it would be printed without it. */
  lemma RegistryRestoredIff<S(!new)>(
    w: World, f: Format<S>, files: Files, platform: string, host: Path, backup: Path, original: Content)
    requires Faithful(w) && Lawful(f) && Strips(w, f, platform) && MergeText(f, original).Some?
    requires Lookup(files, w.registry(platform)) == MergeText(f, original)
    requires Lookup(files, backup) == Some(original) && backup != w.registry(platform)
    ensures
      var p := w.registry(platform);
      var merged := MergeText(f, original).value;
      var actions := [FileModified(p, backup, w.sha(original), w.sha(merged)), McpRegistered(platform, host)];
      var result := Lookup(RolledBack(w, files, actions), p);
      result == Some(Residue(f, original)) && (result == Some(original) <==> Tidy(f, original))
  {
    var p, merged := w.registry(platform), MergeText(f, original).value;
    var a := FileModified(p, backup, w.sha(original), w.sha(merged));
    RegistryResult(w, f, files, a, platform, host, Some(original), original);
    ResidueIs(f, original);
  }

  /** A registry file that the install created is never removed: it stays, with an empty list of servers. */
  lemma CreatedRegistryStays<S(!new)>(
    w: World, f: Format<S>, files: Files, platform: string, host: Path, template: Content)
    requires Faithful(w) && Lawful(f) && Strips(w, f, platform) && f.parse(template) == Some(Object(map[]))
    requires Lookup(files, w.registry(platform)) == MergeText(f, template)
    ensures
      var p := w.registry(platform);
      var merged := MergeText(f, template);
      && merged.Some?
      && var actions := [FileCreated(p, w.sha(merged.value)), McpRegistered(platform, host)];
         Lookup(RolledBack(w, files, actions), p) == Some(f.write(Object(map[SERVERS := Object(map[])])))
  {
    var p, merged := w.registry(platform), MergeText(f, template).value;
    RegistryResult(w, f, files, FileCreated(p, w.sha(merged)), platform, host, None, template);
    EmptyResidue(f, template);
  }

  lemma EmptyResidue<S>(f: Format<S>, c: Content)
    requires f.parse(c) == Some(Object(map[]))
    ensures MergeText(f, c) == Some(f.write(Object(map[SERVERS := Object(map[NAME := Entry()])])))
    ensures Residue(f, c) == f.write(Object(map[SERVERS := Object(map[])]))
  {
    var none: map<string, Json<S>> := map[];
    assert none - {NAME} == none && none[SERVERS := Object(none)] == map[SERVERS := Object(none)];
    assert none[NAME := Entry()] == map[NAME := Entry()];
  }

  /** An empty object in the file: rolled back, it is left with an empty list of servers. */
  lemma RegistryLeftStripped<S(!new)>(
    w: World, f: Format<S>, files: Files, platform: string, host: Path, backup: Path, original: Content)
    requires Faithful(w) && Lawful(f) && Strips(w, f, platform) && f.parse(original) == Some(Object(map[]))
    requires Lookup(files, w.registry(platform)) == MergeText(f, original)
    requires Lookup(files, backup) == Some(original) && backup != w.registry(platform)
    ensures
      var p := w.registry(platform);
      var merged := f.write(Object(map[SERVERS := Object(map[NAME := Entry()])]));
      var actions := [FileModified(p, backup, w.sha(original), w.sha(merged)), McpRegistered(platform, host)];
      var result := Lookup(RolledBack(w, files, actions), p);
      result == Some(f.write(Object(map[SERVERS := Object(map[])]))) && result != Some(original)
  {
    EmptyResidue(f, original);
    RegistryRestoredIff(w, f, files, platform, host, backup, original);
  }
}
