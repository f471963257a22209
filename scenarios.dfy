/** Whole-pipeline scenarios: the language files of the repository's own
    tests, followed from the path and the parsed document to the emitted
    module `lang`. */
module Scenarios {
  import opened Base
  import opened Json
  import opened Errors
  import opened Ident
  import opened Tokens
  import opened Namespace
  import opened Builder
  import opened Emit
  import opened Dispatch

  /** The English language file: a root array of three objects, merged
      into one root. */
  const EnglishDocument: Value := Arr([
    Obj([Member("ping", Str("pong")), Member("foo", Str("buzz"))]),
    Obj([Member("dummy", Obj([Member("some", Arr([Str("none"), Str("or"), Num("0")]))]))]),
    Obj([Member("rust", Obj([
      Member("rust", Str("rust")),
      Member("is", Null),
      Member("good", Obj([Member("true", Arr([Num("1"), Bool(true)]))]))]))])
  ])

  /** The constant a test reads as the string `text`. */
  function StrConst(name: string, text: string): Item {
    Const(name, StrType, IntoData(Single(text)))
  }

  /** The constant a test reads as the array `items`. */
  function ArrConst(name: string, items: seq<string>): Item {
    Const(name, GetType(Array(items)), IntoData(Array(items)))
  }

  /** `mod lang` for the English file: `PING` and `FOO` side by side at the
      top, `dummy::SOME` with a number element turned into its text,
      `rust::IS` empty for `null`, and `rust::good::TRUE` holding `1` and
      `true` as texts. */
  const EnglishModule: Item := Module("lang", [
    StrConst("PING", "pong"),
    StrConst("FOO", "buzz"),
    Module("dummy", [ArrConst("SOME", ["none", "or", "0"])]),
    Module("rust", [
      StrConst("RUST", "rust"),
      StrConst("IS", ""),
      Module("good", [ArrConst("TRUE", ["1", "true"])])])
  ])

  /** The entries the English file pushes onto the root, in order. */
  const EnglishEntries: seq<TokenJson> := [
    TokenEntry(Token("ping", Single("pong"))),
    TokenEntry(Token("foo", Single("buzz"))),
    NamespaceEntry(NamespaceTree(Some("dummy"), [TokenEntry(Token("some", Array(["none", "or", "0"])))])),
    NamespaceEntry(NamespaceTree(Some("rust"), [
      TokenEntry(Token("rust", Single("rust"))),
      TokenEntry(Token("is", Single(""))),
      NamespaceEntry(NamespaceTree(Some("good"), [TokenEntry(Token("true", Array(["1", "true"])))]))]))
  ]

  /** The directory the test language files live in. */
  const LangDir: string := "./tests/lang"

  lemma EnglishUpper()
    ensures ToUpper("en_US") == "EN_US"
  {
  }

  lemma EnglishFirst(f: string)
    ensures Walk(EnglishDocument.elems[0], f) == Walked(EnglishEntries[..2], None)
  {
    var ms := EnglishDocument.elems[0].members;
    assert ms[..1][..0] == [];
    assert WalkMembers(ms[..1], f) == Walked(EnglishEntries[..1], None);
    assert ms[..2][..1] == ms[..1];
  }

  lemma SomeArray()
    ensures ClassifyArray([Str("none"), Str("or"), Num("0")]) == Ok(["none", "or", "0"])
  {
    var arr := [Str("none"), Str("or"), Num("0")];
    assert forall j :: 0 <= j < |arr| ==> !arr[j].Obj?;
    var r := ClassifyArray(arr);
    assert r.Ok? && |r.value| == 3;
    assert r.value[0] == "none" && r.value[1] == "or" && r.value[2] == JsonText(Num("0"));
    assert r.value == ["none", "or", "0"];
  }

  lemma TrueArray()
    ensures ClassifyArray([Num("1"), Bool(true)]) == Ok(["1", "true"])
  {
    var arr := [Num("1"), Bool(true)];
    assert forall j :: 0 <= j < |arr| ==> !arr[j].Obj?;
    var r := ClassifyArray(arr);
    assert r.Ok? && |r.value| == 2;
    assert r.value[0] == JsonText(Num("1")) && r.value[1] == JsonText(Bool(true));
    assert r.value == ["1", "true"];
  }

  lemma EnglishSecond(f: string)
    ensures Walk(EnglishDocument.elems[1], f) == Walked(EnglishEntries[2..3], None)
  {
    SomeArray();
    var inner := [Member("some", Arr([Str("none"), Str("or"), Num("0")]))];
    assert inner[..0] == [];
    assert Walk(Obj(inner), f) == Walked([TokenEntry(Token("some", Array(["none", "or", "0"])))], None);
    var ms := EnglishDocument.elems[1].members;
    assert ms[..0] == [];
  }

  lemma EnglishGood(f: string)
    ensures Walk(Obj([Member("true", Arr([Num("1"), Bool(true)]))]), f) ==
      Walked([TokenEntry(Token("true", Array(["1", "true"])))], None)
  {
    TrueArray();
    var ms := [Member("true", Arr([Num("1"), Bool(true)]))];
    assert ms[..0] == [];
  }

  lemma EnglishThird(f: string)
    ensures Walk(EnglishDocument.elems[2], f) == Walked(EnglishEntries[3..], None)
  {
    var rust := EnglishDocument.elems[2].members[0].val.members;
    EnglishGood(f);
    assert rust[..1][..0] == [];
    assert rust[..2][..1] == rust[..1];
    assert rust[..3] == rust;
    assert rust[..3][..2] == rust[..2];
    assert WalkMembers(rust[..1], f) == Walked([TokenEntry(Token("rust", Single("rust")))], None);
    assert WalkMembers(rust[..2], f) ==
      Walked([TokenEntry(Token("rust", Single("rust"))), TokenEntry(Token("is", Single("")))], None);
    assert Walk(Obj(rust), f) == Walked(EnglishEntries[3].ns.tokens, None);
    var ms := EnglishDocument.elems[2].members;
    assert ms[..0] == [];
  }

  /** The English document builds into `EnglishEntries`. */
  lemma EnglishBuild(f: string)
    ensures Build(EnglishDocument, f) == Ok(EnglishEntries)
  {
    var elems := EnglishDocument.elems;
    EnglishFirst(f);
    EnglishSecond(f);
    EnglishThird(f);
    assert elems[..1][..0] == [];
    assert elems[..2][..1] == elems[..1];
    assert elems[..3] == elems;
    assert elems[..3][..2] == elems[..2];
    assert WalkRootArray(elems[..1], f) == Walked(EnglishEntries[..2], None);
    assert WalkRootArray(elems[..2], f) == Walked(EnglishEntries[..3], None);
    assert EnglishEntries[..3] + EnglishEntries[3..] == EnglishEntries;
  }

  lemma UpperPing()
    ensures ToUpper("ping") == "PING"
  {
  }

  lemma UpperFoo()
    ensures ToUpper("foo") == "FOO"
  {
  }

  lemma UpperSome()
    ensures ToUpper("some") == "SOME"
  {
  }

  lemma UpperRust()
    ensures ToUpper("rust") == "RUST"
  {
  }

  lemma UpperIs()
    ensures ToUpper("is") == "IS"
  {
  }

  lemma UpperTrue()
    ensures ToUpper("true") == "TRUE"
  {
  }

  lemma RustModule()
    ensures EmitEntry(EnglishEntries[3]) == EnglishModule.items[3]
  {
    var ts := EnglishEntries[3].ns.tokens;
    UpperRust();
    UpperIs();
    UpperTrue();
    var good := ts[2].ns.tokens;
    assert EmitEntries(good) == [EmitEntry(good[0])];
    assert EmitEntry(ts[2]) == EnglishModule.items[3].items[2];
    assert ts == [ts[0], ts[1], ts[2]];
    assert EmitEntries(ts) == [EmitEntry(ts[0]), EmitEntry(ts[1]), EmitEntry(ts[2])];
  }

  lemma PingConst()
    ensures EmitEntry(EnglishEntries[0]) == EnglishModule.items[0]
  {
    UpperPing();
  }

  lemma FooConst()
    ensures EmitEntry(EnglishEntries[1]) == EnglishModule.items[1]
  {
    UpperFoo();
  }

  lemma DummyModule()
    ensures EmitEntry(EnglishEntries[2]) == EnglishModule.items[2]
  {
    UpperSome();
    var ts := EnglishEntries[2].ns.tokens;
    assert EmitEntries(ts) == [EmitEntry(ts[0])];
  }

  lemma EmitFour(a: TokenJson, b: TokenJson, c: TokenJson, d: TokenJson)
    ensures EmitEntries([a, b, c, d]) == [EmitEntry(a), EmitEntry(b), EmitEntry(c), EmitEntry(d)]
  {
    assert [a, b, c, d][1..] == [b, c, d];
    assert [b, c, d][1..] == [c, d];
    assert [c, d][1..] == [d];
  }

  /** The English entries are emitted as `EnglishModule`. */
  lemma EnglishEmit()
    ensures EmitNamespace(NamespaceTree(None, EnglishEntries)) == EnglishModule
  {
    var ts := EnglishEntries;
    var want := EnglishModule.items;
    PingConst();
    FooConst();
    DummyModule();
    RustModule();
    assert ts == [ts[0], ts[1], ts[2], ts[3]];
    EmitFour(ts[0], ts[1], ts[2], ts[3]);
    assert want == [want[0], want[1], want[2], want[3]];
  }

  /** The English file, from its path, is emitted as `EnglishModule`. */
  lemma EnglishFile()
    ensures FromFile(LangDir + "/" + ("en_US" + "." + "json"), Parsed(EnglishDocument)).Ok?
    ensures EmitFile(FromFile(LangDir + "/" + ("en_US" + "." + "json"), Parsed(EnglishDocument)).value) == EnglishModule
  {
    TestPath("en_US", "json");
    EnglishUpper();
    EnglishBuild("EN_US");
    EnglishEmit();
  }

  /** `stem.ext` in `LangDir` has file name `stem.ext`, prefix `stem` and
      extension `ext`. */
  lemma TestPath(stem: string, ext: string)
    requires stem != [] && '.' !in stem && '/' !in stem && '.' !in ext && '/' !in ext
    ensures FileName(LangDir + "/" + (stem + "." + ext)) == Some(stem + "." + ext)
    ensures FilePrefix(stem + "." + ext) == stem
    ensures Extension(stem + "." + ext) == Some(ext)
  {
    var name := stem + "." + ext;
    assert name[|stem|] == '.';
    assert name[0] == stem[0] != '.';
    forall i | 0 <= i < |name|
      ensures name[i] != '/'
    {
      if i < |stem| {
        assert name[i] == stem[i];
      } else if i > |stem| {
        assert name[i] == ext[i - |stem| - 1];
      }
    }
    FileNameOfJoin(LangDir, name);
    StemAndExtension(stem, ext);
  }

  /** A `.json` file in `LangDir` holding a bare scalar: `mod lang` with one
      `&str` constant named by the upper-cased stem. */
  lemma ScalarTestFile(stem: string, v: Value)
    requires stem != [] && '.' !in stem && '/' !in stem && IsScalar(v)
    ensures FromFile(LangDir + "/" + (stem + "." + "json"), Parsed(v)).Ok?
    ensures EmitFile(FromFile(LangDir + "/" + (stem + "." + "json"), Parsed(v)).value) ==
      Module("lang", [StrConst(ToUpper(stem), ScalarText(v))])
  {
    var path := LangDir + "/" + (stem + "." + "json");
    TestPath(stem, "json");
    ScalarFileEntry(path, v);
    RootOfOneToken(Token(ToUpper(stem), Single(ScalarText(v))));
    ToUpperIdempotent(stem);
  }

  lemma UpperEnUk()
    ensures ToUpper("en_UK") == "EN_UK"
  {
  }

  lemma UpperRuBy()
    ensures ToUpper("ru_BY") == "RU_BY"
  {
  }

  lemma UpperDeDe()
    ensures ToUpper("de_DE") == "DE_DE"
  {
  }

  lemma UpperFrFr()
    ensures ToUpper("fr_FR") == "FR_FR"
  {
  }

  /** `null` at the root: `lang::EN_UK` is the empty string. */
  lemma NullFile()
    ensures FromFile(LangDir + "/" + ("en_UK" + "." + "json"), Parsed(Null)).Ok?
    ensures EmitFile(FromFile(LangDir + "/" + ("en_UK" + "." + "json"), Parsed(Null)).value) ==
      Module("lang", [StrConst("EN_UK", "")])
  {
    ScalarTestFile("en_UK", Null);
    UpperEnUk();
  }

  /** A big number at the root keeps its literal: `lang::RU_BY` is
      `1e37`. */
  lemma BigNumberFile()
    ensures FromFile(LangDir + "/" + ("ru_BY" + "." + "json"), Parsed(Num("1e37"))).Ok?
    ensures EmitFile(FromFile(LangDir + "/" + ("ru_BY" + "." + "json"), Parsed(Num("1e37"))).value) ==
      Module("lang", [StrConst("RU_BY", "1e37")])
  {
    ScalarTestFile("ru_BY", Num("1e37"));
    UpperRuBy();
  }

  /** `lang::DE_DE` is `228.01`. */
  lemma SmallNumberFile()
    ensures FromFile(LangDir + "/" + ("de_DE" + "." + "json"), Parsed(Num("228.01"))).Ok?
    ensures EmitFile(FromFile(LangDir + "/" + ("de_DE" + "." + "json"), Parsed(Num("228.01"))).value) ==
      Module("lang", [StrConst("DE_DE", "228.01")])
  {
    ScalarTestFile("de_DE", Num("228.01"));
    UpperDeDe();
  }

  /** `lang::FR_FR` is `false`. */
  lemma BooleanFile()
    ensures FromFile(LangDir + "/" + ("fr_FR" + "." + "json"), Parsed(Bool(false))).Ok?
    ensures EmitFile(FromFile(LangDir + "/" + ("fr_FR" + "." + "json"), Parsed(Bool(false))).value) ==
      Module("lang", [StrConst("FR_FR", "false")])
  {
    ScalarTestFile("fr_FR", Bool(false));
    UpperFrFr();
  }

  /** An object inside an array field stops the build with that object as
      the error. */
  lemma ObjectInArrayField(f: string)
    ensures Build(Obj([Member("list", Arr([Str("a"), Obj([])]))]), f) == Err(ArrayContainsObject(Obj([])))
  {
    var arr := [Str("a"), Obj([])];
    assert FirstObject(arr) == 1;
    var ms := [Member("list", Arr(arr))];
    assert ms[..0] == [];
  }

  /** A file with another extension is not read: it gives an empty
      `mod lang`. */
  lemma TextFile(document: Document)
    ensures FromFile(LangDir + "/" + ("notes" + "." + "txt"), document).Ok?
    ensures EmitFile(FromFile(LangDir + "/" + ("notes" + "." + "txt"), document).value) == Module("lang", [])
  {
    TestPath("notes", "txt");
  }

  /** A leading dot does not start an extension: such a file is refused. */
  lemma HiddenFile(document: Document)
    ensures FromFile(LangDir + "/" + ("." + "hidden"), document) == Err(NoExtension("." + "hidden"))
  {
    FileNameOfJoin(LangDir, "." + "hidden");
    LeadingDotOnly("hidden");
  }
}
