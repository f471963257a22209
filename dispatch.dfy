/** File dispatch (`parse_from_file`) with the file system taken out: the
    path is a string, and what reading and parsing the file would give is
    passed in as a `Document`. The file name, its prefix and its extension
    are computed as Rust's `Path::file_name`, `file_prefix` and `extension`
    do for `/`-separated paths. */
module Dispatch {
  import opened Base
  import opened Json
  import opened Errors
  import opened Ident
  import opened Tokens
  import opened Namespace
  import opened Builder
  import opened Emit
  import Literal

  // ---- Paths ----

  /** The path cut at every `/`. */
  function Split(path: string): (r: seq<string>)
    ensures |r| >= 1
    ensures forall i :: 0 <= i < |r| ==> '/' !in r[i]
  {
    if path == [] then [""]
    else
      var rest := Split(path[1..]);
      if path[0] == '/' then [""] + rest
      else [[path[0]] + rest[0]] + rest[1..]
  }

  /** The pieces that are neither empty nor `.`: those that Rust's
      `components` yields as names (or as `..`). */
  function Named(pieces: seq<string>): (r: seq<string>)
    ensures forall i :: 0 <= i < |r| ==> r[i] != "" && r[i] != "." && r[i] in pieces
  {
    if pieces == [] then []
    else
      var rest := Named(pieces[1..]);
      if pieces[0] == "" || pieces[0] == "." then rest else [pieces[0]] + rest
  }

  /** `Path::file_name`: the last component, when it is a name. */
  function FileName(path: string): (r: Option<string>)
    ensures r.Some? ==> r.value != "" && r.value != "." && r.value != ".." && '/' !in r.value
  {
    var cs := Named(Split(path));
    if cs == [] || Last(cs) == ".." then None else Some(Last(cs))
  }

  /** The index of the first `.` at or after `from`, or `|s|`. */
  function DotFrom(s: string, from: nat): (k: nat)
    requires from <= |s|
    ensures from <= k <= |s|
    ensures forall j :: from <= j < k ==> s[j] != '.'
    ensures k < |s| ==> s[k] == '.'
    decreases |s| - from
  {
    if from == |s| || s[from] == '.' then from else DotFrom(s, from + 1)
  }

  /** The index of the last `.` in `s`, if there is one. */
  function LastDot(s: string): (r: Option<nat>)
    ensures r.Some? ==> r.value < |s| && s[r.value] == '.' && '.' !in s[r.value + 1..]
    ensures r.None? ==> '.' !in s
  {
    if s == [] then None
    else if Last(s) == '.' then Some(|s| - 1)
    else
      var r := LastDot(s[..|s| - 1]);
      assert s == s[..|s| - 1] + [Last(s)];
      if r.Some? then
        assert s[r.value + 1..] == s[..|s| - 1][r.value + 1..] + [Last(s)];
        r
      else r
  }

  /** `file_prefix` of a file name: the name up to its first `.`, a dot in
      the first position not counting. */
  function FilePrefix(name: string): (r: string)
    requires name != ""
    ensures r != [] && r <= name
    ensures forall j :: 1 <= j < |r| ==> r[j] != '.'
    ensures |r| < |name| ==> name[|r|] == '.'
  {
    name[..DotFrom(name, 1)]
  }

  /** `extension` of a file name: what follows its last `.`, unless that
      dot is the first character. */
  function Extension(name: string): (r: Option<string>)
    ensures r.Some? ==> exists k :: 0 < k < |name| && name == name[..k] + "." + r.value
    ensures r.Some? ==> '.' !in r.value
    ensures r.None? ==> forall j :: 0 < j < |name| ==> name[j] != '.'
  {
    match LastDot(name)
    case None => None
    case Some(k) =>
      if k == 0 then
        assert forall j :: 0 < j < |name| ==> name[j] == name[1..][j - 1];
        None
      else
        assert name == name[..k] + "." + name[k + 1..];
        Some(name[k + 1..])
  }

  lemma {:induction false} SplitJoin(a: string, b: string)
    ensures Split(a + "/" + b) == Split(a) + Split(b)
    decreases |a|
  {
    if a == [] {
      assert a + "/" + b == "/" + b;
      assert ("/" + b)[1..] == b;
    } else {
      assert (a + "/" + b)[0] == a[0] && (a + "/" + b)[1..] == a[1..] + "/" + b;
      SplitJoin(a[1..], b);
    }
  }

  lemma {:induction false} SplitOfName(name: string)
    requires '/' !in name
    ensures Split(name) == [name]
    decreases |name|
  {
    if name != [] {
      SplitOfName(name[1..]);
      assert [name[0]] + name[1..] == name;
    }
  }

  lemma {:induction false} NamedAppend(p: seq<string>, q: seq<string>)
    ensures Named(p + q) == Named(p) + Named(q)
    decreases |p|
  {
    if p == [] {
      assert p + q == q;
    } else {
      assert (p + q)[0] == p[0] && (p + q)[1..] == p[1..] + q;
      NamedAppend(p[1..], q);
    }
  }

  /** The file name of `dir/name` is `name`, for any directory part, as
      long as `name` is itself a file name. */
  lemma FileNameOfJoin(dir: string, name: string)
    requires name != "" && name != "." && name != ".." && '/' !in name
    ensures FileName(dir + "/" + name) == Some(name)
    ensures FileName(name) == Some(name)
  {
    SplitJoin(dir, name);
    SplitOfName(name);
    NamedAppend(Split(dir), [name]);
    assert Named([name]) == [name];
  }

  /** A trailing `/` does not change the file name. */
  lemma TrailingSlashKeepsName(p: string)
    ensures FileName(p + "/") == FileName(p)
  {
    TrailingPiece(p, "");
    assert p + "/" + "" == p + "/";
    assert Named([""]) == [];
  }

  /** A trailing `/.` does not change the file name. */
  lemma TrailingDotKeepsName(p: string)
    ensures FileName(p + "/.") == FileName(p)
  {
    TrailingPiece(p, ".");
    assert p + "/" + "." == p + "/.";
    assert Named(["."]) == [];
  }

  /** A path ending in `/..` names no file. */
  lemma TrailingParentHasNone(p: string)
    ensures FileName(p + "/..") == None
  {
    TrailingPiece(p, "..");
    assert p + "/" + ".." == p + "/..";
    assert Named([".."]) == [".."];
  }

  /** Neither the empty path nor `/` names a file. */
  lemma RootHasNone()
    ensures FileName("") == None && FileName("/") == None
  {
    assert Split("/") == [""] + Split("");
  }

  lemma TrailingPiece(p: string, last: string)
    requires '/' !in last
    ensures Named(Split(p + "/" + last)) == Named(Split(p)) + Named([last])
  {
    SplitJoin(p, last);
    SplitOfName(last);
    NamedAppend(Split(p), [last]);
  }

  /** Prefix and extension of one file name agree: a name with an
      extension has a prefix that stops at a dot, no later than the dot
      before the extension; a name with no extension and no leading dot is
      its own prefix. */
  lemma PrefixAndExtension(name: string)
    requires name != ""
    ensures Extension(name).Some? ==>
      |FilePrefix(name)| + 1 + |Extension(name).value| <= |name| &&
      name[|FilePrefix(name)|] == '.'
    ensures Extension(name).None? && name[0] != '.' ==> FilePrefix(name) == name
  {
    if Extension(name).Some? {
      var e := Extension(name).value;
      var k :| 0 < k < |name| && name == name[..k] + "." + e;
      assert name[k] == '.';
    }
  }

  /** A name made of a dot-free stem, a dot and a dot-free extension splits
      back into exactly that stem and that extension. */
  lemma StemAndExtension(stem: string, ext: string)
    requires stem != [] && '.' !in stem && '.' !in ext
    ensures FilePrefix(stem + "." + ext) == stem
    ensures Extension(stem + "." + ext) == Some(ext)
  {
    var name := stem + "." + ext;
    assert name[|stem|] == '.';
    assert forall j :: 0 <= j < |stem| ==> name[j] == stem[j];
    assert forall j :: |stem| < j < |name| ==> name[j] == ext[j - |stem| - 1];
    var k := DotFrom(name, 1);
    assert k == |stem|;
    assert name[..k] == stem;
    var d := LastDot(name).value;
    assert name[d + 1..] == ext;
  }

  /** A name that starts with its only dot has no extension and is its own
      prefix. */
  lemma LeadingDotOnly(rest: string)
    requires '.' !in rest
    ensures FilePrefix("." + rest) == "." + rest
    ensures Extension("." + rest) == None
  {
    var name := "." + rest;
    assert forall j :: 1 <= j < |name| ==> name[j] == rest[j - 1];
    assert DotFrom(name, 1) == |name|;
    assert name[..|name|] == name;
  }

  // ---- Dispatch ----

  /** What opening and parsing the file gives: the parsed document, or the
      cause of the failure to open or to parse it. */
  datatype Document =
    | Parsed(value: Value)
    | Unreadable(cause: string)
    | Malformed(cause: string)

  /** `File`: the file prefix and the root namespace. */
  datatype File = File(name: string, tokens: NamespaceTree)

  const Root: NamespaceTree := NamespaceTree(None, [])

  /** What `parse_from_file` returns for `path`. */
  function FromFile(path: string, document: Document): Result<File> {
    match FileName(path)
    case None => Err(NoFileName(path))
    case Some(name) =>
      var prefix := FilePrefix(name);
      match Extension(name)
      case None => Err(NoExtension(prefix))
      case Some(ext) =>
        if ext != "json" then Ok(File(prefix, Root))
        else
          match document
          case Unreadable(cause) => Err(CannotRead(prefix, cause))
          case Malformed(cause) => Err(CannotDeserialize(prefix, cause))
          case Parsed(v) =>
            match Build(v, ToUpper(prefix))
            case Err(e) => Err(e)
            case Ok(ts) => Ok(File(prefix, NamespaceTree(None, ts)))
  }

  /** `parse_from_file`: the early returns on the path, then a default root
      filled by `ParseJson`, which is dropped if the walk fails. */
  method ParseFromFile(path: string, document: Document) returns (r: Result<File>)
    ensures r == FromFile(path, document)
  {
    var name := FileName(path);
    if name.None? {
      return Err(NoFileName(path));
    }
    var fileName := FilePrefix(name.value);
    var extension := Extension(name.value);
    if extension.None? {
      return Err(NoExtension(fileName));
    }
    if extension.value != "json" {
      return Ok(File(fileName, Root));
    }
    if document.Unreadable? {
      return Err(CannotRead(fileName, document.cause));
    }
    if document.Malformed? {
      return Err(CannotDeserialize(fileName, document.cause));
    }
    var root := new JsonNamespace.Default();
    var res := ParseJson(document.value, root, ToUpper(fileName));
    if res.Err? {
      return Err(res.error);
    }
    assert root.Snapshot() == NamespaceTree(None, Walk(document.value, ToUpper(fileName)).pushed);
    return Ok(File(fileName, root.Snapshot()));
  }

  /** `From<File>`: a file is emitted as its root namespace. */
  function EmitFile(f: File): Item {
    EmitNamespace(f.tokens)
  }

  /** A path whose file name has no extension fails with the prefixed
      message "A file with some extension was expected", whatever the
      document; and only such paths fail that way. */
  lemma NoExtensionFails(path: string, document: Document)
    ensures FromFile(path, document).Err? && FromFile(path, document).error.NoExtension? <==>
      FileName(path).Some? && Extension(FileName(path).value).None?
    ensures FromFile(path, document).Err? && FromFile(path, document).error.NoExtension? ==>
      Message(FromFile(path, document).error) == ErrorPrefix + "A file with some extension was expected"
  {
    var r := FromFile(path, document);
    if FileName(path).Some? {
      var name := FileName(path).value;
      var ext := Extension(name);
      if ext.Some? && ext.value == "json" && document.Parsed? {
        var f := ToUpper(FilePrefix(name));
        if Build(document.value, f).Err? {
          BuildErrorIsFromWalk(document.value, f);
          assert r == Err(Build(document.value, f).error);
        }
      }
    }
    if r.Err? && r.error.NoExtension? {
      PrefixMarksFileErrors(r.error);
      assert Message(r.error) == Prefixed("A file with some extension was expected");
    }
  }

  /** A path fails with `NoFileName` exactly when it names no file, and
      then the error carries the path as given. */
  lemma NoFileNameFails(path: string, document: Document)
    ensures FromFile(path, document).Err? && FromFile(path, document).error.NoFileName? <==>
      FileName(path).None?
    ensures FileName(path).None? ==> FromFile(path, document) == Err(NoFileName(path))
  {
    if FileName(path).Some? {
      var name := FileName(path).value;
      var ext := Extension(name);
      if ext.Some? && ext.value == "json" && document.Parsed? {
        var f := ToUpper(FilePrefix(name));
        if Build(document.value, f).Err? {
          BuildErrorIsFromWalk(document.value, f);
        }
      }
    }
  }

  /** The errors of a walk are about the document, never about the file. */
  lemma BuildErrorIsFromWalk(v: Value, fileName: string)
    requires Build(v, fileName).Err?
    ensures !IsFileError(Build(v, fileName).error)
  {
    WalkErrorIsFromWalk(v, fileName);
  }

  lemma {:induction false} WalkErrorIsFromWalk(v: Value, fileName: string)
    ensures Walk(v, fileName).error.Some? ==> !IsFileError(Walk(v, fileName).error.value)
    decreases v, 2
  {
    match v
    case Obj(ms) => WalkMembersErrorIsFromWalk(ms, fileName);
    case Arr(elems) => WalkRootArrayErrorIsFromWalk(elems, fileName);
    case _ =>
  }

  lemma {:induction false} WalkMembersErrorIsFromWalk(ms: seq<Member>, fileName: string)
    ensures WalkMembers(ms, fileName).error.Some? ==> !IsFileError(WalkMembers(ms, fileName).error.value)
    decreases ms, 1
  {
    if ms != [] {
      WalkMembersErrorIsFromWalk(ms[..|ms| - 1], fileName);
      if Last(ms).val.Obj? {
        WalkErrorIsFromWalk(Last(ms).val, fileName);
      }
    }
  }

  lemma {:induction false} WalkRootArrayErrorIsFromWalk(elems: seq<Value>, fileName: string)
    ensures WalkRootArray(elems, fileName).error.Some? ==> !IsFileError(WalkRootArray(elems, fileName).error.value)
    decreases elems, 1
  {
    if elems != [] {
      WalkRootArrayErrorIsFromWalk(elems[..|elems| - 1], fileName);
      WalkErrorIsFromWalk(Last(elems), fileName);
    }
  }

  /** Any extension other than `json` gives the empty default root, which
      is emitted as an empty module `lang`; the document is not looked
      at. */
  lemma OtherExtensionIsEmptyLang(path: string, document: Document)
    requires FileName(path).Some?
    requires Extension(FileName(path).value).Some? && Extension(FileName(path).value).value != "json"
    ensures FromFile(path, document).Ok?
    ensures FromFile(path, document) == FromFile(path, Malformed(""))
    ensures EmitFile(FromFile(path, document).value) == Module("lang", [])
  {
  }

  /** When the walk of a `.json` document fails, the result is that error
      alone: the partly filled root is dropped. */
  lemma FailedWalkDropsRoot(path: string, v: Value)
    requires FileName(path).Some?
    requires Extension(FileName(path).value) == Some("json")
    requires Build(v, ToUpper(FilePrefix(FileName(path).value))).Err?
    ensures FromFile(path, Parsed(v)) == Err(Build(v, ToUpper(FilePrefix(FileName(path).value))).error)
  {
  }

  /** A `.json` file holding a bare scalar builds into one token named by
      the upper-cased file prefix. */
  lemma ScalarFileEntry(path: string, v: Value)
    requires FileName(path).Some?
    requires Extension(FileName(path).value) == Some("json")
    requires IsScalar(v)
    ensures
      var prefix := FilePrefix(FileName(path).value);
      FromFile(path, Parsed(v)) ==
        Ok(File(prefix, NamespaceTree(None, [TokenEntry(Token(ToUpper(prefix), Single(ScalarText(v))))])))
  {
  }

  lemma RootOfOneToken(t: Token)
    ensures EmitNamespace(NamespaceTree(None, [TokenEntry(t)])) == Module("lang", [EmitToken(t)])
  {
    assert EmitEntries([TokenEntry(t)]) == [EmitEntry(TokenEntry(t))];
  }

  /** A `.json` file holding a bare scalar is emitted as module `lang` with
      one string constant, named by the file prefix upper-cased (once,
      though the name goes through upper-casing twice), whose value reads
      back as the scalar's text. */
  lemma ScalarFileIsOneConstant(path: string, v: Value)
    requires FileName(path).Some?
    requires Extension(FileName(path).value) == Some("json")
    requires IsScalar(v)
    ensures FromFile(path, Parsed(v)).Ok?
    ensures
      var item := EmitFile(FromFile(path, Parsed(v)).value);
      var prefix := FilePrefix(FileName(path).value);
      && item.Module? && item.name == "lang" && |item.items| == 1
      && item.items[0].Const?
      && item.items[0].name == ToUpper(prefix)
      && item.items[0].ty == "&str"
      && Literal.ReadLiteral(item.items[0].value) == Some((ScalarText(v), ""))
  {
    var prefix := FilePrefix(FileName(path).value);
    var t := Token(ToUpper(prefix), Single(ScalarText(v)));
    ScalarFileEntry(path, v);
    RootOfOneToken(t);
    ToUpperIdempotent(prefix);
    Literal.ReadQuoted(ScalarText(v), "");
    assert Literal.Quote(ScalarText(v)) + "" == Literal.Quote(ScalarText(v));
  }
}
