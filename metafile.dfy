/**
 * Loading and querying a rez package metafile (`package.yaml`): the
 * validation rules as functions over the parsed YAML value, and the
 * `ConfigMetadata` object that applies them field by field.
 */
module RezMetafile {
  import opened Wrappers
  import opened Yaml
  import opened Text

  /** The newest metafile format this loader understands. */
  const METAFILE_VERSION: int := 0

  /** The rule a document broke; each raises `ConfigMetadataError` naming the file. */
  datatype Rule =
    | NonDictionaryRoot
    | MissingConfigVersion
    | InvalidConfigVersion          // int() raised on the config_version value
    | ConfigVersionOutOfRange(v: int)
    | AuthorsNotList
    | NonListNode(key: string)
    | BadFirstEntry(key: string, expected: EntryCheck)

  /** What `ConfigMetadata(filename)` can raise. */
  datatype Error =
    | IOError                       // the file could not be opened or read
    | YamlError                     // the YAML parser rejected the text
    | LenTypeError                  // len() of a scalar root (bool, int, float)
    | OverflowError                 // int() of an infinite config_version, which the loader does not catch
    | ConfigMetadataError(filename: string, rule: Rule)

  /** The type test applied to element 0 of a list field, and to no other element. */
  datatype EntryCheck = AnyEntry | StringEntry | ListEntry

  predicate Admits(check: EntryCheck, v: Value) {
    match check
    case AnyEntry => true
    case StringEntry => v.Str?
    case ListEntry => v.List?
  }

  /** Every attribute a loaded `ConfigMetadata` exposes. */
  datatype Metadata = Metadata(
    filename: string,
    configVersion: int,
    uuid: Option<string>,
    authors: Option<seq<Value>>,
    description: Option<string>,
    name: Option<string>,
    version: Option<string>,
    help: Option<string>,
    requirements: Option<seq<Value>>,
    buildRequirements: Option<seq<Value>>,
    variants: Option<seq<Value>>,
    commands: Option<seq<Value>>)

  /** The attributes `__init__` sets before it reads the file. */
  function Blank(filename: string): Metadata {
    Metadata(filename, METAFILE_VERSION, None, None, None, None, None, None, None, None, None, None)
  }

  predicate NoneOrNonEmpty(field: Option<seq<Value>>) {
    field.None? || |field.value| > 0
  }

  /** Python truth value of a list-or-None attribute. */
  predicate Truthy(field: Option<seq<Value>>) {
    field.Some? && |field.value| > 0
  }

  function Items(field: Option<seq<Value>>): seq<Value> {
    if field.Some? then field.value else []
  }

  /** What every successfully loaded metafile satisfies. */
  predicate WellFormed(md: Metadata) {
    && 0 <= md.configVersion <= METAFILE_VERSION
    && NoneOrNonEmpty(md.requirements)
    && NoneOrNonEmpty(md.buildRequirements)
    && NoneOrNonEmpty(md.variants)
    && NoneOrNonEmpty(md.commands)
    && (md.requirements.Some? ==> md.requirements.value[0].Str?)
    && (md.buildRequirements.Some? ==> md.buildRequirements.value[0].Str?)
    && (md.variants.Some? ==> md.variants.value[0].List?)
  }

  /** A root that loads as a stub package: null, or anything whose len() is 0. */
  predicate IsStub(root: Value) {
    root.Null? || Len(root) == Some(0)
  }

  /** A list field that passes the version-0 checks: absent, or a list whose element 0 (if any) has the right type. */
  predicate FieldAccepted(m: map<string, Value>, key: string, check: EntryCheck) {
    key in m ==> m[key].List? && (|m[key].items| > 0 ==> Admits(check, m[key].items[0]))
  }

  /** What a list field holds after loading: the source list, with an empty list read as absent. */
  function Normalized(m: map<string, Value>, key: string): Option<seq<Value>> {
    if key in m && m[key].List? && |m[key].items| > 0 then Some(m[key].items) else None
  }

  /** The conditions under which a non-empty mapping root is accepted, in no particular order. */
  predicate Accepted(m: map<string, Value>, conv: Coercions) {
    && "config_version" in m
    && conv.toInt(m["config_version"]).Converted?
    && 0 <= conv.toInt(m["config_version"]).value <= METAFILE_VERSION
    && ("authors" in m ==> m["authors"].List?)
    && FieldAccepted(m, "requires", StringEntry)
    && FieldAccepted(m, "build_requires", StringEntry)
    && FieldAccepted(m, "variants", ListEntry)
    && FieldAccepted(m, "commands", AnyEntry)
  }

  /** One list field of a version-0 metafile: absent, empty, or a list checked at element 0 only. */
  function ListField(m: map<string, Value>, key: string, check: EntryCheck): (r: Result<Option<seq<Value>>, Rule>)
    ensures r.Success? <==> FieldAccepted(m, key, check)
    ensures r.Success? ==> r.value == Normalized(m, key)
    ensures r.Failure? && !m[key].List? ==> r.error == NonListNode(key)
    ensures r.Failure? && m[key].List? ==> r.error == BadFirstEntry(key, check)
  {
    if key !in m then Success(None)
    else
      var node := m[key];
      if !node.List? then Failure(NonListNode(key))
      else if |node.items| == 0 then Success(None)
      else if !Admits(check, node.items[0]) then Failure(BadFirstEntry(key, check))
      else Success(Some(node.items))
  }

  /** Version-0 fields, read in the order requires, build_requires, variants, commands. */
  function LoadVersion0(md: Metadata, m: map<string, Value>): (r: Result<Metadata, Rule>)
    ensures r.Success? <==>
      && FieldAccepted(m, "requires", StringEntry)
      && FieldAccepted(m, "build_requires", StringEntry)
      && FieldAccepted(m, "variants", ListEntry)
      && FieldAccepted(m, "commands", AnyEntry)
    ensures r.Success? ==> r.value == md.(
      requirements := Normalized(m, "requires"),
      buildRequirements := Normalized(m, "build_requires"),
      variants := Normalized(m, "variants"),
      commands := Normalized(m, "commands"))
    ensures !FieldAccepted(m, "requires", StringEntry) ==>
      r == Failure(ListField(m, "requires", StringEntry).error)
    ensures FieldAccepted(m, "requires", StringEntry) && !FieldAccepted(m, "build_requires", StringEntry) ==>
      r == Failure(ListField(m, "build_requires", StringEntry).error)
    ensures (FieldAccepted(m, "requires", StringEntry) && FieldAccepted(m, "build_requires", StringEntry) &&
             !FieldAccepted(m, "variants", ListEntry)) ==>
      r == Failure(ListField(m, "variants", ListEntry).error)
    ensures (FieldAccepted(m, "requires", StringEntry) && FieldAccepted(m, "build_requires", StringEntry) &&
             FieldAccepted(m, "variants", ListEntry) && !FieldAccepted(m, "commands", AnyEntry)) ==>
      r == Failure(ListField(m, "commands", AnyEntry).error)
  {
    var requirements :- ListField(m, "requires", StringEntry);
    var buildRequirements :- ListField(m, "build_requires", StringEntry);
    var variants :- ListField(m, "variants", ListEntry);
    var commands :- ListField(m, "commands", AnyEntry);
    Success(md.(requirements := requirements, buildRequirements := buildRequirements,
                variants := variants, commands := commands))
  }

  /** `str(m[key])` when the key is present. */
  function StrField(m: map<string, Value>, key: string, conv: Coercions): Option<string> {
    if key in m then Some(conv.toStr(m[key])) else None
  }

  /** The fields common to every format version, from a mapping whose authors entry (if any) is a list. */
  function CommonFields(filename: string, configVersion: int, m: map<string, Value>, conv: Coercions): (md: Metadata)
    requires "authors" in m ==> m["authors"].List?
    ensures md.filename == filename && md.configVersion == configVersion
    ensures md.uuid.Some? <==> "uuid" in m
    ensures md.version.Some? <==> "version" in m
    ensures md.name.Some? <==> "name" in m
    ensures md.help.Some? <==> "help" in m
    ensures md.description.Some? <==> "description" in m
    ensures md.description.Some? ==> md.description.value == Strip(conv.toStr(m["description"]))
    ensures md.description.Some? && md.description.value != [] ==>
      !IsSpace(md.description.value[0]) && !IsSpace(md.description.value[|md.description.value| - 1])
    ensures md.authors.Some? <==> "authors" in m
    ensures md.authors.Some? ==> m["authors"] == List(md.authors.value)
    ensures md.requirements.None? && md.buildRequirements.None? && md.variants.None? && md.commands.None?
  {
    Blank(filename).(
      configVersion := configVersion,
      uuid := StrField(m, "uuid", conv),
      authors := if "authors" in m then Some(m["authors"].items) else None,
      description := if "description" in m then Some(Strip(conv.toStr(m["description"]))) else None,
      version := StrField(m, "version", conv),
      name := StrField(m, "name", conv),
      help := StrField(m, "help", conv))
  }

  /** The checks of `ConfigMetadata.__init__` once the document has been parsed into `root`. */
  function LoadRoot(filename: string, root: Value, conv: Coercions): (r: Result<Metadata, Error>)
    ensures IsStub(root) ==> r == Success(Blank(filename))
    ensures !IsStub(root) && Len(root).None? ==> r == Failure(LenTypeError)
    ensures !IsStub(root) && Len(root).Some? && !root.Dict? ==>
      r == Failure(ConfigMetadataError(filename, NonDictionaryRoot))
    ensures root.Dict? && |root.entries| > 0 ==>
      && (r.Success? <==> Accepted(root.entries, conv))
      && (r == Failure(OverflowError) <==>
            "config_version" in root.entries && conv.toInt(root.entries["config_version"]).Overflow?)
      && (r.Failure? && r.error != OverflowError ==> r.error.ConfigMetadataError? && r.error.filename == filename)
    ensures r.Success? ==> WellFormed(r.value) && r.value.filename == filename
  {
    var d := if root == Null then Dict(map[]) else root;
    match Len(d)
    case None => Failure(LenTypeError)
    case Some(n) =>
      if n == 0 then Success(Blank(filename))
      else if !d.Dict? then Failure(ConfigMetadataError(filename, NonDictionaryRoot))
      else
        var m := d.entries;
        if "config_version" !in m then Failure(ConfigMetadataError(filename, MissingConfigVersion))
        else match conv.toInt(m["config_version"])
          case Overflow => Failure(OverflowError)
          case Unconvertible => Failure(ConfigMetadataError(filename, InvalidConfigVersion))
          case Converted(cv) =>
            if cv < 0 || cv > METAFILE_VERSION then
              Failure(ConfigMetadataError(filename, ConfigVersionOutOfRange(cv)))
            else if "authors" in m && !m["authors"].List? then
              Failure(ConfigMetadataError(filename, AuthorsNotList))
            else
              var common := CommonFields(filename, cv, m, conv);
              if cv == 0 then LoadVersion0(common, m).MapFailure(rule => ConfigMetadataError(filename, rule))
              else Success(common)
  }

  /** `ConfigMetadata(filename)` given what reading and parsing the file produced. */
  function LoadDocument(filename: string, doc: Document, conv: Coercions): (r: Result<Metadata, Error>)
    ensures doc.Unreadable? ==> r == Failure(IOError)
    ensures doc.Malformed? ==> r == Failure(YamlError)
    ensures doc.Parsed? ==> r.Failure? ==> r.error != IOError && r.error != YamlError
    ensures r.Success? ==> WellFormed(r.value) && r.value.filename == filename
  {
    match doc
    case Unreadable => Failure(IOError)
    case Malformed => Failure(YamlError)
    case Parsed(root) => LoadRoot(filename, root, conv)
  }

  /** The `config_version` checks of a non-empty mapping, in the order the loader applies them. */
  lemma ConfigVersionRules(filename: string, m: map<string, Value>, conv: Coercions)
    requires |m| > 0
    ensures "config_version" !in m ==>
      LoadRoot(filename, Dict(m), conv) == Failure(ConfigMetadataError(filename, MissingConfigVersion))
    ensures "config_version" in m && conv.toInt(m["config_version"]).Unconvertible? ==>
      LoadRoot(filename, Dict(m), conv) == Failure(ConfigMetadataError(filename, InvalidConfigVersion))
    ensures "config_version" in m && conv.toInt(m["config_version"]).Overflow? ==>
      LoadRoot(filename, Dict(m), conv) == Failure(OverflowError)
    ensures ("config_version" in m && conv.toInt(m["config_version"]).Converted? &&
      !(0 <= conv.toInt(m["config_version"]).value <= METAFILE_VERSION)) ==>
      LoadRoot(filename, Dict(m), conv) ==
        Failure(ConfigMetadataError(filename, ConfigVersionOutOfRange(conv.toInt(m["config_version"]).value)))
  {
  }

  /**
   * Once `config_version` passes, a non-list `authors` is the next rule
   * checked; past it, any failure is the first broken version-0 list rule.
   */
  lemma AuthorsAndListRules(filename: string, m: map<string, Value>, conv: Coercions)
    requires |m| > 0 && "config_version" in m && conv.toInt(m["config_version"]).Converted?
    requires 0 <= conv.toInt(m["config_version"]).value <= METAFILE_VERSION
    ensures "authors" in m && !m["authors"].List? ==>
      LoadRoot(filename, Dict(m), conv) == Failure(ConfigMetadataError(filename, AuthorsNotList))
    ensures ("authors" in m ==> m["authors"].List?) ==>
      var cv := conv.toInt(m["config_version"]).value;
      var r := LoadVersion0(CommonFields(filename, cv, m, conv), m);
      r.Failure? ==> LoadRoot(filename, Dict(m), conv) == Failure(ConfigMetadataError(filename, r.error))
  {
  }

  /** `config_version: .inf` makes `int()` raise OverflowError, which escapes the loader unwrapped. */
  lemma InfiniteConfigVersion(filename: string, m: map<string, Value>, conv: Coercions)
    requires PythonLike(conv)
    requires "config_version" in m && m["config_version"] == Float(".inf")
    ensures LoadRoot(filename, Dict(m), conv) == Failure(OverflowError)
  {
  }

  /** On an accepted mapping every attribute is read from its own key, and nothing else is set. */
  lemma LoadedFields(filename: string, m: map<string, Value>, conv: Coercions)
    requires |m| > 0 && Accepted(m, conv)
    ensures LoadRoot(filename, Dict(m), conv).Success?
    ensures var md := LoadRoot(filename, Dict(m), conv).value;
      && md.configVersion == conv.toInt(m["config_version"]).value
      && md.uuid == StrField(m, "uuid", conv)
      && md.authors == (if "authors" in m then Some(m["authors"].items) else None)
      && md.description == (if "description" in m then Some(Strip(conv.toStr(m["description"]))) else None)
      && md.version == StrField(m, "version", conv)
      && md.name == StrField(m, "name", conv)
      && md.help == StrField(m, "help", conv)
      && md.requirements == Normalized(m, "requires")
      && md.buildRequirements == Normalized(m, "build_requires")
      && md.variants == Normalized(m, "variants")
      && md.commands == Normalized(m, "commands")
  {
  }

  /** Only element 0 of a list field is type-checked: the elements after it can be anything. */
  lemma ShallowEntryCheck(m: map<string, Value>, key: string, first: Value, rest: seq<Value>, conv: Coercions)
    requires key in {"requires", "build_requires", "variants", "commands"}
    requires key in m && m[key].List? && |m[key].items| > 0 && m[key].items[0] == first
    ensures Accepted(m[key := List([first] + rest)], conv) <==> Accepted(m, conv)
    ensures Normalized(m[key := List([first] + rest)], key) == Some([first] + rest)
  {
  }

  /** With a Python interpreter's int(), `config_version: 0` passes the version checks. */
  lemma ZeroConfigVersionAccepted(m: map<string, Value>, conv: Coercions)
    requires PythonLike(conv)
    requires "config_version" in m && m["config_version"] == Int(0)
    ensures conv.toInt(m["config_version"]) == Converted(0)
    ensures Accepted(m, conv) <==>
      && ("authors" in m ==> m["authors"].List?)
      && FieldAccepted(m, "requires", StringEntry)
      && FieldAccepted(m, "build_requires", StringEntry)
      && FieldAccepted(m, "variants", ListEntry)
      && FieldAccepted(m, "commands", AnyEntry)
  {
  }

  /** The `!MAJOR_VERSION!` and `!MINOR_VERSION!` values: pieces 0 and 1 of `version.split('.') + ['', '']`. */
  function VersionNumbers(version: string): (r: (string, string))
    ensures '.' !in r.0 && r.0 <= version && (|r.0| == |version| || version[|r.0|] == '.')
    ensures |r.0| == |version| ==> r.1 == ""
    ensures |r.0| < |version| ==>
      var rest := version[|r.0| + 1..];
      '.' !in r.1 && r.1 <= rest && (|r.1| == |rest| || rest[|r.1|] == '.')
  {
    var vernums := SplitOn(version, ".") + ["", ""];
    SplitOnCharHead(version, '.');
    var parts := SplitOn(version, ".");
    if |parts| > 1 then
      SplitOnCharHead(version[|parts[0]| + 1..], '.');
      (vernums[0], vernums[1])
    else
      (vernums[0], vernums[1])
  }

  /** The values substituted into command templates. */
  datatype Substitutions = Substitutions(
    version: string, major: string, minor: string, base: string, root: string, user: string)

  /** `os.getenv("USER", "UNKNOWN_USER")` given the environment's USER entry. */
  function UserName(userEnv: Option<string>): (user: string)
    ensures userEnv.None? ==> user == "UNKNOWN_USER"
    ensures userEnv.Some? ==> user == userEnv.value
  {
    userEnv.GetOr("UNKNOWN_USER")
  }

  /** The values `get_string_replace_commands` works out once, before its loop. */
  function SubstitutionsFor(version: string, base: string, root: string, userEnv: Option<string>): (sub: Substitutions)
    ensures sub.version == version && sub.base == base && sub.root == root && sub.user == UserName(userEnv)
    ensures (sub.major, sub.minor) == VersionNumbers(version)
  {
    var numbers := VersionNumbers(version);
    Substitutions(version, numbers.0, numbers.1, base, root, UserName(userEnv))
  }

  /** One command after the six replacements, each applied to every occurrence before the next. */
  function Render(cmd: string, sub: Substitutions): (r: string)
    ensures '!' !in cmd ==> r == cmd
  {
    var c1 := ReplaceAll(cmd, "!VERSION!", sub.version);
    var c2 := ReplaceAll(c1, "!MAJOR_VERSION!", sub.major);
    var c3 := ReplaceAll(c2, "!MINOR_VERSION!", sub.minor);
    var c4 := ReplaceAll(c3, "!BASE!", sub.base);
    var c5 := ReplaceAll(c4, "!ROOT!", sub.root);
    var c6 := ReplaceAll(c5, "!USER!", sub.user);
    if '!' !in cmd then
      ReplaceAllUntouched(cmd, "!VERSION!", sub.version);
      ReplaceAllUntouched(c1, "!MAJOR_VERSION!", sub.major);
      ReplaceAllUntouched(c2, "!MINOR_VERSION!", sub.minor);
      ReplaceAllUntouched(c3, "!BASE!", sub.base);
      ReplaceAllUntouched(c4, "!ROOT!", sub.root);
      ReplaceAllUntouched(c5, "!USER!", sub.user);
      c6
    else
      c6
  }

  /** Version "3" has no minor component; "2.5.1" has major "2" and minor "5". */
  lemma VersionNumbersExamples()
    ensures VersionNumbers("3") == ("3", "")
    ensures VersionNumbers("2.5.1") == ("2", "5")
  {
    var three := VersionNumbers("3");
    assert "3"[0] != '.';
    assert |three.0| == 1;
    assert three.0 == "3"[..1] == "3";
    var full := VersionNumbers("2.5.1");
    assert full.0 == "2" by {
      assert "2.5.1"[0] != '.' && "2.5.1"[1] == '.';
      assert |full.0| == 1;
      assert full.0 == "2.5.1"[..1];
    }
    assert full.1 == "5" by {
      var rest := "2.5.1"[2..];
      assert rest == "5.1";
      assert rest[0] != '.' && rest[1] == '.';
      assert |full.1| == 1;
      assert full.1 == rest[..1];
    }
  }

  /** Filling `!VERSION!` in `head !VERSION! mid tag` touches only that placeholder. */
  lemma VersionStep(head: string, mid: string, tag: string, version: string)
    requires '!' !in head && '!' !in mid && tag == "!USER!"
    ensures ReplaceAll(head + "!VERSION!" + mid + tag, "!VERSION!", version) == head + version + mid + tag
  {
    assert head + "!VERSION!" + mid + tag == head + ("!VERSION!" + (mid + tag));
    ReplaceAllSkip(head, "!VERSION!" + (mid + tag), "!VERSION!", version);
    ReplaceAllAtFront(mid + tag, "!VERSION!", version);
    ReplaceAllSkip(mid, tag, "!VERSION!", version);
    ReplaceAllTooShort(tag, "!VERSION!", version);
  }

  /** Text free of '!' followed by the `!USER!` placeholder is left alone by any other placeholder. */
  lemma OtherTagStep(lead: string, tag: string, pat: string, rep: string)
    requires '!' !in lead && tag == "!USER!"
    requires pat == "!MAJOR_VERSION!" || pat == "!MINOR_VERSION!" || pat == "!BASE!" || pat == "!ROOT!"
    ensures ReplaceAll(lead + tag, pat, rep) == lead + tag
  {
    ReplaceAllSkip(lead, tag, pat, rep);
    if |pat| > |tag| {
      ReplaceAllTooShort(tag, pat, rep);
    } else {
      ReplaceOtherTag(tag, pat, rep);
    }
  }

  /** Filling `!USER!` at the end of text free of '!'. */
  lemma UserStep(lead: string, tag: string, user: string)
    requires '!' !in lead && tag == "!USER!"
    ensures ReplaceAll(lead + tag, tag, user) == lead + user
  {
    ReplaceAllSkip(lead, tag, tag, user);
    ReplaceAllAtFront([], tag, user);
    assert tag + [] == tag;
  }

  /**
   * A command whose only placeholders are one `!VERSION!` and a final
   * `!USER!` gets exactly those two filled in, provided the text around
   * them and the version bring in no '!' of their own.
   */
  lemma RenderVersionAndUser(cmd: string, head: string, mid: string, sub: Substitutions)
    requires cmd == head + "!VERSION!" + mid + "!USER!"
    requires '!' !in head && '!' !in mid && '!' !in sub.version
    ensures Render(cmd, sub) == head + sub.version + mid + sub.user
  {
    var tag := "!USER!";
    var lead := head + sub.version + mid;
    VersionStep(head, mid, tag, sub.version);
    OtherTagStep(lead, tag, "!MAJOR_VERSION!", sub.major);
    OtherTagStep(lead, tag, "!MINOR_VERSION!", sub.minor);
    OtherTagStep(lead, tag, "!BASE!", sub.base);
    OtherTagStep(lead, tag, "!ROOT!", sub.root);
    UserStep(lead, tag, sub.user);
  }

  /**
   * The command `setup !VERSION! !USER!` at version 2.5.1 renders as
   * `setup 2.5.1 ` followed by the user: `alice` when USER is alice,
   * `UNKNOWN_USER` when it is unset (see UserName).
   */
  lemma RenderExample(cmd: string, head: string, mid: string, sub: Substitutions)
    requires head == "setup " && mid == " " && sub.version == "2.5.1"
    requires cmd == head + "!VERSION!" + mid + "!USER!"
    ensures Render(cmd, sub) == "setup 2.5.1 " + sub.user
  {
    RenderVersionAndUser(cmd, head, mid, sub);
  }

  /** The first command that is not a string: `.replace` raises AttributeError on it. */
  datatype TemplateError = CommandNotString(index: nat)

  predicate AllStrings(cmds: seq<Value>) {
    forall i :: 0 <= i < |cmds| ==> cmds[i].Str?
  }

  /** The package object built by `ConfigMetadata(filename)`. */
  class ConfigMetadata {
    const filename: string
    var metadict: Value
    var configVersion: int
    var uuid: Option<string>
    var authors: Option<seq<Value>>
    var description: Option<string>
    var name: Option<string>
    var version: Option<string>
    var help: Option<string>
    var requirements: Option<seq<Value>>
    var buildRequirements: Option<seq<Value>>
    var variants: Option<seq<Value>>
    var commands: Option<seq<Value>>

    function Snapshot(): Metadata
      reads this
    {
      Metadata(filename, configVersion, uuid, authors, description, name, version, help,
               requirements, buildRequirements, variants, commands)
    }

    predicate Valid()
      reads this
    {
      WellFormed(Snapshot())
    }

    /** The defaults `__init__` assigns before reading the file. */
    constructor (filename: string)
      ensures this.filename == filename
      ensures Snapshot() == Blank(filename) && metadict == Null
    {
      this.filename := filename;
      metadict := Null;
      configVersion := METAFILE_VERSION;
      uuid, authors, description, name, version, help := None, None, None, None, None, None;
      requirements, buildRequirements, variants, commands := None, None, None, None;
    }

    /** The body of `__init__` after `yaml.load`: validates `root` and fills the attributes in source order. */
    method Populate(root: Value, conv: Coercions) returns (err: Option<Error>)
      requires Snapshot() == Blank(filename)
      modifies this
      ensures var r := LoadRoot(filename, root, conv);
        && (err.Some? <==> r.Failure?)
        && (err.Some? ==> err.value == r.error)
        && (err.None? ==> Snapshot() == r.value && Valid())
      ensures metadict == if root == Null then Dict(map[]) else root
    {
      metadict := root;
      if metadict == Null {
        metadict := Dict(map[]);
      }
      var size := Len(metadict);
      if size.None? {
        return Some(LenTypeError);
      }
      if size.value == 0 {
        return None;
      }
      if !metadict.Dict? {
        return Some(ConfigMetadataError(filename, NonDictionaryRoot));
      }
      var m := metadict.entries;
      if "config_version" !in m {
        return Some(ConfigMetadataError(filename, MissingConfigVersion));
      }
      var sysver := conv.toInt(m["config_version"]);
      if sysver.Overflow? {
        return Some(OverflowError);
      }
      if sysver.Unconvertible? {
        return Some(ConfigMetadataError(filename, InvalidConfigVersion));
      }
      configVersion := sysver.value;
      if configVersion < 0 || configVersion > METAFILE_VERSION {
        return Some(ConfigMetadataError(filename, ConfigVersionOutOfRange(configVersion)));
      }
      var authorsOk := ReadCommon(m, conv);
      if !authorsOk {
        return Some(ConfigMetadataError(filename, AuthorsNotList));
      }
      assert LoadRoot(filename, root, conv) ==
        LoadVersion0(Snapshot(), m).MapFailure(rule => ConfigMetadataError(filename, rule));
      if configVersion == 0 {
        var rule := Load0();
        if rule.Some? {
          return Some(ConfigMetadataError(filename, rule.value));
        }
      }
      return None;
    }

    /** The common attributes (uuid, authors, description, version, name, help), each read only when its key is present. */
    method ReadCommon(m: map<string, Value>, conv: Coercions) returns (authorsOk: bool)
      requires Snapshot() == Blank(filename).(configVersion := configVersion)
      modifies this`uuid, this`authors, this`description, this`version, this`name, this`help
      ensures authorsOk <==> ("authors" in m ==> m["authors"].List?)
      ensures authorsOk ==> Snapshot() == CommonFields(filename, configVersion, m, conv)
    {
      if "uuid" in m {
        uuid := Some(conv.toStr(m["uuid"]));
      }
      if "authors" in m {
        if !m["authors"].List? {
          return false;
        }
        authors := Some(m["authors"].items);
      }
      if "description" in m {
        description := Some(Strip(conv.toStr(m["description"])));
      }
      if "version" in m {
        version := Some(conv.toStr(m["version"]));
      }
      if "name" in m {
        name := Some(conv.toStr(m["name"]));
      }
      if "help" in m {
        help := Some(conv.toStr(m["help"]));
      }
      return true;
    }

    /** `load_0`: reads the four list fields of a version-0 metafile, stopping at the first broken rule. */
    method Load0() returns (rule: Option<Rule>)
      requires metadict.Dict?
      requires requirements.None? && buildRequirements.None? && variants.None? && commands.None?
      modifies this`requirements, this`buildRequirements, this`variants, this`commands
      ensures var r := LoadVersion0(old(Snapshot()), metadict.entries);
        && (rule.Some? <==> r.Failure?)
        && (rule.Some? ==> rule.value == r.error)
        && (rule.None? ==> Snapshot() == r.value)
    {
      var m := metadict.entries;
      if "requires" in m {
        var field := ListField(m, "requires", StringEntry);
        if field.Failure? {
          return Some(field.error);
        }
        requirements := field.value;
      }
      if "build_requires" in m {
        var field := ListField(m, "build_requires", StringEntry);
        if field.Failure? {
          return Some(field.error);
        }
        buildRequirements := field.value;
      }
      if "variants" in m {
        var field := ListField(m, "variants", ListEntry);
        if field.Failure? {
          return Some(field.error);
        }
        variants := field.value;
      }
      if "commands" in m {
        var field := ListField(m, "commands", AnyEntry);
        if field.Failure? {
          return Some(field.error);
        }
        commands := field.value;
      }
      return None;
    }

    /**
     * `get_requires(include_build_reqs)`: the runtime requirements, or the
     * build requirements followed by the runtime ones, with an empty merge read as absent.
     */
    method GetRequires(includeBuildReqs: bool) returns (r: Option<seq<Value>>)
      ensures !includeBuildReqs ==> r == requirements
      ensures includeBuildReqs ==> (r.None? <==> !Truthy(buildRequirements) && !Truthy(requirements))
      ensures includeBuildReqs && r.Some? ==> r.value == Items(buildRequirements) + Items(requirements)
      ensures includeBuildReqs && Valid() ==> (r.None? <==> buildRequirements.None? && requirements.None?)
    {
      if includeBuildReqs {
        var reqs: seq<Value> := [];
        if Truthy(buildRequirements) {
          reqs := reqs + buildRequirements.value;
        }
        if Truthy(requirements) {
          reqs := reqs + requirements.value;
        }
        if |reqs| > 0 {
          return Some(reqs);
        } else {
          return None;
        }
      } else {
        return requirements;
      }
    }

    /** `get_build_requires()`: absent or a non-empty list led by a string, once loaded. */
    function GetBuildRequires(): (r: Option<seq<Value>>)
      reads this
      ensures Valid() ==> r.None? || (|r.value| > 0 && r.value[0].Str?)
    {
      buildRequirements
    }

    /** `get_variants()`: absent or a non-empty list led by a list, once loaded. */
    function GetVariants(): (r: Option<seq<Value>>)
      reads this
      ensures Valid() ==> r.None? || (|r.value| > 0 && r.value[0].List?)
    {
      variants
    }

    /** `get_commands()`: the raw templates, absent or a non-empty list once loaded. */
    function GetCommands(): (r: Option<seq<Value>>)
      reads this
      ensures Valid() ==> r.None? || |r.value| > 0
    {
      commands
    }

    /**
     * `get_string_replace_commands(version, base, root)`: every command, in
     * order, with its placeholders filled in; `userEnv` is the USER variable.
     */
    method GetStringReplaceCommands(version: string, base: string, root: string, userEnv: Option<string>)
      returns (r: Result<Option<seq<string>>, TemplateError>)
      ensures !Truthy(commands) ==> r == Success(None)
      ensures Truthy(commands) && AllStrings(commands.value) ==>
        var sub := SubstitutionsFor(version, base, root, userEnv);
        && r.Success? && r.value.Some?
        && |r.value.value| == |commands.value|
        && forall i :: 0 <= i < |commands.value| ==> r.value.value[i] == Render(commands.value[i].s, sub)
      ensures Truthy(commands) && !AllStrings(commands.value) ==>
        && r.Failure?
        && r.error.index < |commands.value|
        && !commands.value[r.error.index].Str?
        && forall j :: 0 <= j < r.error.index ==> commands.value[j].Str?
    {
      if !Truthy(commands) {
        return Success(None);
      }
      var vernums := SplitOn(version, ".") + ["", ""];
      var majorVersion := vernums[0];
      var minorVersion := vernums[1];
      var user := UserName(userEnv);
      var sub := Substitutions(version, majorVersion, minorVersion, base, root, user);
      assert sub == SubstitutionsFor(version, base, root, userEnv);

      var cmds := commands.value;
      var newCmds: seq<string> := [];
      for i := 0 to |cmds|
        invariant |newCmds| == i
        invariant forall j :: 0 <= j < i ==> cmds[j].Str? && newCmds[j] == Render(cmds[j].s, sub)
      {
        if !cmds[i].Str? {
          return Failure(CommandNotString(i));
        }
        var cmd := cmds[i].s;
        cmd := ReplaceAll(cmd, "!VERSION!", version);
        cmd := ReplaceAll(cmd, "!MAJOR_VERSION!", majorVersion);
        cmd := ReplaceAll(cmd, "!MINOR_VERSION!", minorVersion);
        cmd := ReplaceAll(cmd, "!BASE!", base);
        cmd := ReplaceAll(cmd, "!ROOT!", root);
        cmd := ReplaceAll(cmd, "!USER!", user);
        newCmds := newCmds + [cmd];
      }
      return Success(Some(newCmds));
    }
  }

  /** `ConfigMetadata(filename)`: a fresh object, or the exception its constructor raises. */
  method NewConfigMetadata(filename: string, doc: Document, conv: Coercions) returns (r: Result<ConfigMetadata, Error>)
    ensures var spec := LoadDocument(filename, doc, conv);
      && (r.Failure? <==> spec.Failure?)
      && (r.Failure? ==> r.error == spec.error)
      && (r.Success? ==> fresh(r.value) && r.value.filename == filename && r.value.Valid()
                          && r.value.Snapshot() == spec.value)
  {
    var md := new ConfigMetadata(filename);
    match doc
    case Unreadable =>
      return Failure(IOError);
    case Malformed =>
      return Failure(YamlError);
    case Parsed(root) =>
      var err := md.Populate(root, conv);
      if err.Some? {
        return Failure(err.value);
      }
      return Success(md);
  }

  /** Build requirements b1, b2 and requirement r1: merged they read b1, b2, r1; unmerged just r1; with neither, nothing. */
  method RequiresScenario() returns (merged: Option<seq<Value>>, runtime: Option<seq<Value>>, neither: Option<seq<Value>>)
    ensures merged == Some([Str("b1"), Str("b2"), Str("r1")])
    ensures runtime == Some([Str("r1")])
    ensures neither == None
  {
    var md := new ConfigMetadata("package.yaml");
    md.buildRequirements := Some([Str("b1"), Str("b2")]);
    md.requirements := Some([Str("r1")]);
    merged := md.GetRequires(true);
    assert Truthy(md.buildRequirements) && Truthy(md.requirements);
    assert [Str("b1"), Str("b2")] + [Str("r1")] == [Str("b1"), Str("b2"), Str("r1")];
    runtime := md.GetRequires(false);
    var bare := new ConfigMetadata("stub.yaml");
    neither := bare.GetRequires(true);
  }
}
