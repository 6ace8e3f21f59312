/**
 * The asset loader: from a path and the file's bytes to a script or an error.
 * A `.fzb` file already holds bytecode and is stored as it is; any other file
 * is UTF-8 source that is lexed, parsed, compiled and serialized. The loader
 * has no state, so its answer is a function of the path and the bytes.
 */
module Loader {
  import opened Wrappers
  import opened Utf8Codec
  import opened Paths
  import opened Fusabi
  import opened Asset

  /**
   * `FusabiLoaderError`: which step failed, with its message. `Io` comes from
   * reading the file and `Utf8` carries the rejected bytes, as `FromUtf8Error` does.
   */
  datatype LoaderError =
    | Io(message: string)
    | Lexer(message: string)
    | Parser(message: string)
    | Compiler(message: string)
    | Bytecode(message: string)
    | Utf8(bytes: Bytes)

  /** The UTF-8 bytes of "fzb", the extension of precompiled bytecode. */
  const FzbBytes: Bytes := [0x66, 0x7A, 0x62]

  /** `extensions`: the file extensions the loader claims. */
  function Extensions(): (r: seq<string>)
    ensures |r| == 2 && "fsx" in r && "fzb" in r
  {
    ["fsx", "fzb"]
  }

  /** The extension as text, `""` when there is none or it is not UTF-8. */
  function ExtensionText(path: Bytes): (r: string)
    ensures Extension(path).None? ==> r == ""
    ensures Extension(path).Some? && Decode(Extension(path).value).Some? ==> Encode(r) == Extension(path).value
    ensures Extension(path).Some? && Decode(Extension(path).value).None? ==> r == ""
    ensures r != "" ==> Extension(path) == Some(Encode(r))
  {
    match Extension(path)
    case None => ""
    case Some(e) =>
      match Decode(e)
      case None => ""
      case Some(s) => EncodeDecode(e); s
  }

  /** The script's name: the file stem as text, `"unknown"` when there is none or it is not UTF-8. */
  function ScriptName(path: Bytes): (r: string)
    ensures FileName(path).None? ==> r == "unknown"
    ensures FileStem(path).Some? && Decode(FileStem(path).value).Some? ==> Encode(r) == FileStem(path).value
    ensures FileStem(path).Some? && Decode(FileStem(path).value).None? ==> r == "unknown"
  {
    match FileStem(path)
    case None => "unknown"
    case Some(stem) =>
      match Decode(stem)
      case None => "unknown"
      case Some(s) => EncodeDecode(stem); s
  }

  /**
   * `compile_source`: lexer, then parser, then compiler. The first stage that
   * fails ends the pipeline and names the error; only when all three succeed
   * is there a chunk, the one the compiler produced.
   */
  function CompileSource(fx: Capabilities, source: string): (r: Result<Chunk, LoaderError>)
    ensures r.Err? ==> r.error.Lexer? || r.error.Parser? || r.error.Compiler?
    ensures fx.tokenize(source).Err? ==> r == Err(Lexer(fx.tokenize(source).error))
    ensures fx.tokenize(source).Ok? && fx.parse(fx.tokenize(source).value).Err? ==>
              r == Err(Parser(fx.parse(fx.tokenize(source).value).error))
    ensures fx.tokenize(source).Ok? && fx.parse(fx.tokenize(source).value).Ok?
            && fx.compile(fx.parse(fx.tokenize(source).value).value).Err? ==>
              r == Err(Compiler(fx.compile(fx.parse(fx.tokenize(source).value).value).error))
    ensures r.Ok? <==>
              fx.tokenize(source).Ok? && fx.parse(fx.tokenize(source).value).Ok?
              && fx.compile(fx.parse(fx.tokenize(source).value).value).Ok?
    ensures r.Ok? ==> fx.compile(fx.parse(fx.tokenize(source).value).value) == Ok(r.value)
  {
    match fx.tokenize(source)
    case Err(e) => Err(Lexer(e))
    case Ok(tokens) =>
      match fx.parse(tokens)
      case Err(e) => Err(Parser(e))
      case Ok(program) =>
        match fx.compile(program)
        case Err(e) => Err(Compiler(e))
        case Ok(chunk) => Ok(chunk)
  }

  /**
   * The bytecode to store, chosen by the extension: the bytes themselves for
   * `fzb`, otherwise the serialized compilation of the bytes read as UTF-8
   * source. Errors never arise on the `fzb` branch and never concern I/O.
   */
  function BytecodeFor(fx: Capabilities, ext: string, bytes: Bytes): (r: Result<Bytes, LoaderError>)
    ensures ext == "fzb" ==> r == Ok(bytes)
    ensures r.Err? ==> ext != "fzb" && !r.error.Io?
    ensures ext != "fzb" && r.Ok? ==>
              Decode(bytes).Some? && CompileSource(fx, Decode(bytes).value).Ok?
              && fx.serialize(CompileSource(fx, Decode(bytes).value).value) == Ok(r.value)
  {
    if ext == "fzb" then
      Ok(bytes)
    else
      match Decode(bytes)
      case None => Err(Utf8(bytes))
      case Some(source) =>
        match CompileSource(fx, source)
        case Err(e) => Err(e)
        case Ok(chunk) =>
          match fx.serialize(chunk)
          case Err(e) => Err(Bytecode(e))
          case Ok(b) => Ok(b)
  }

  /**
   * `FusabiLoader::load`, once the bytes have been read: the extension picks
   * the branch, the stem names the script. The load succeeds exactly when the
   * bytecode can be produced, and then holds it; otherwise it fails with the
   * error that producing it raised.
   */
  function Load(fx: Capabilities, path: Bytes, bytes: Bytes): (r: Result<FusabiScript, LoaderError>)
    ensures r.Ok? <==> BytecodeFor(fx, ExtensionText(path), bytes).Ok?
    ensures r.Ok? ==> r.value == New(ScriptName(path), BytecodeFor(fx, ExtensionText(path), bytes).value)
    ensures r.Err? ==> r.error == BytecodeFor(fx, ExtensionText(path), bytes).error
    ensures r.Ok? ==> r.value.name == ScriptName(path)
    ensures ExtensionText(path) == "fzb" ==> r == Ok(New(ScriptName(path), bytes))
    ensures r.Err? ==> !r.error.Io? && ExtensionText(path) != "fzb"
  {
    var ext := ExtensionText(path);
    var name := ScriptName(path);
    match BytecodeFor(fx, ext, bytes)
    case Err(e) => Err(e)
    case Ok(b) => Ok(New(name, b))
  }

  /**
   * The bytecode branch is taken exactly when the extension's bytes are
   * `fzb`: the comparison is on the exact text, so `FZB` or `fzb ` do not match.
   */
  lemma FzbExactly(path: Bytes)
    ensures ExtensionText(path) == "fzb" <==> Extension(path) == Some(FzbBytes)
  {
    assert Encode("fzb") == FzbBytes;
    DecodeEncode("fzb");
    if ExtensionText(path) == "fzb" {
      DecodeInjective(Extension(path).value, FzbBytes);
    }
  }

  /** Source bytes that are not the UTF-8 encoding of any text are refused with a `Utf8` error carrying them. */
  lemma SourceNotUtf8(fx: Capabilities, ext: string, bytes: Bytes)
    requires ext != "fzb"
    ensures BytecodeFor(fx, ext, bytes) == Err(Utf8(bytes)) <==> forall s: string :: Encode(s) != bytes
  {
    DecodeFailsIffNotEncoding(bytes);
  }

  /**
   * The source branch on text: a failing compile stage's error is the result,
   * a serializer failure gives a `Bytecode` error, and otherwise the result is
   * the serializer's output.
   */
  lemma SourcePath(fx: Capabilities, ext: string, source: string)
    requires ext != "fzb"
    ensures var r := BytecodeFor(fx, ext, Encode(source));
            match CompileSource(fx, source)
            case Err(e) => r == Err(e)
            case Ok(chunk) =>
              match fx.serialize(chunk)
              case Err(m) => r == Err(Bytecode(m))
              case Ok(b) => r == Ok(b)
  {
    DecodeEncode(source);
  }

  /** A lexer failure ends compilation: what the parser and compiler would do makes no difference. */
  lemma LexFailureStops(fx: Capabilities, source: string,
                        parse: Tokens -> Result<Program, string>, compile: Program -> Result<Chunk, string>)
    requires fx.tokenize(source).Err?
    ensures CompileSource(fx.(parse := parse, compile := compile), source) == CompileSource(fx, source)
  {
  }

  /** A parser failure ends compilation: what the compiler would do makes no difference. */
  lemma ParseFailureStops(fx: Capabilities, source: string, compile: Program -> Result<Chunk, string>)
    requires fx.tokenize(source).Ok? && fx.parse(fx.tokenize(source).value).Err?
    ensures CompileSource(fx.(compile := compile), source) == CompileSource(fx, source)
  {
  }

  /** Loading a `.fzb` file never runs the front end or the serializer: any capabilities give the same script. */
  lemma FzbIgnoresCapabilities(fx: Capabilities, gx: Capabilities, ext: string, bytes: Bytes)
    requires ext == "fzb"
    ensures BytecodeFor(fx, ext, bytes) == BytecodeFor(gx, ext, bytes)
  {
  }

  /**
   * For a file named `<stem>.<ext>` in any directory: the script is called
   * `<stem>`, and it is stored verbatim when `<ext>` is `fzb`.
   */
  lemma LoadNamedFile(fx: Capabilities, dir: Bytes, stem: string, ext: string, bytes: Bytes)
    requires stem != [] && stem != "." && '/' !in stem && '.' !in ext && '/' !in ext
    ensures Load(fx, Join(dir, stem, ext), bytes).Ok? ==>
              Load(fx, Join(dir, stem, ext), bytes).value.name == stem
    ensures ext == "fzb" ==> Load(fx, Join(dir, stem, ext), bytes) == Ok(New(stem, bytes))
  {
    var s, e := Encode(stem), Encode(ext);
    var n := s + [Dot] + e;
    EncodeExcludes(stem, '/', Slash);
    EncodeExcludes(ext, '/', Slash);
    EncodeExcludes(ext, '.', Dot);
    assert n[|s|] == Dot;
    if |n| == 2 {
      assert |stem| == 1 && stem[1..] == [];
      assert s == EncodeChar(stem[0]) && |EncodeChar(stem[0])| == 1;
      assert s != [Dot];
      assert s == [s[0]] && n[0] == s[0] && s[0] != Dot;
    }
    assert IsNormalComponent(n);
    FileNameOfJoin(dir, n);
    StemExtensionOf(Join(dir, stem, ext), s, e);
    DecodeEncode(stem);
    DecodeEncode(ext);
  }

  /** The path `<dir>/<stem>.<ext>`. */
  function Join(dir: Bytes, stem: string, ext: string): Bytes {
    dir + [Slash] + (Encode(stem) + [Dot] + Encode(ext))
  }

  /** An ASCII character absent from a string is absent from its encoding as a byte. */
  lemma {:induction false} EncodeExcludes(s: string, c: char, b: byte)
    requires c as int < 0x80 && b as int == c as int && c !in s
    ensures b !in Encode(s)
  {
    if s != [] {
      EncodeExcludes(s[1..], c, b);
      var e := EncodeChar(s[0]);
      if s[0] as int < 0x80 {
        assert e == [s[0] as int as byte];
      } else {
        assert forall k :: 0 <= k < |e| ==> e[k] >= 0x80;
      }
    }
  }
}
