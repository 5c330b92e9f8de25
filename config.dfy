/**
 * The configuration rules of SPConfig.c: the default settings, the rule
 * each recognised key applies to its value, the check for the mandatory
 * fields, the clamp of the number of similar images, the enum mappings of
 * the getters and the construction of file paths.
 *
 * A configuration file reaches the model already split into lines, each
 * classified the way the line tokeniser of spConfigGetVariables would
 * classify it.
 */
module Configs {
  import opened Wrappers

  /** SP_KD_TREE_SPLIT_METHOD, in the order of its declaration. */
  datatype SplitMethod = MaxSpread | Random | Incremental

  /** The integer value C gives each split method constant. */
  function SplitCode(m: SplitMethod): (c: int)
    ensures 0 <= c <= 2
  {
    match m
    case MaxSpread => 0
    case Random => 1
    case Incremental => 2
  }

  /** SP_CONFIG_MSG. */
  datatype Msg =
    | MissingDir | MissingPrefix | MissingSuffix | MissingNumImages
    | CannotOpenFile | AllocFail | InvalidInteger | InvalidString
    | InvalidArgument | IndexOutOfRange | Success

  /** SP_LOGGER_LEVEL. */
  datatype LoggerLevel =
    | ErrorLevel | WarningErrorLevel | InfoWarningErrorLevel | DebugInfoWarningErrorLevel

  /** The fields of the configuration struct, as a value. */
  datatype Settings = Settings(
    imagesDirectory: string,
    imagesPrefix: string,
    imagesSuffix: string,
    numOfImages: int,
    pcaDimension: int,
    pcaFilename: string,
    numOfFeatures: int,
    extractionMode: bool,
    numOfSimilarImages: int,
    kdTreeSplitMethod: int,
    knn: int,
    minimalGui: bool,
    loggerLevel: int,
    loggerFilename: string)

  /** The default values of SPConfig.h. */
  const DefaultStr: string := ""
  const DefaultInt: int := 0
  const DefaultPcaDim: int := 20
  const DefaultPcaFilename: string := "pca.yml"
  const DefaultNumOfFeatures: int := 100
  const DefaultExtractMode: bool := true
  const DefaultMinimalGui: bool := false
  const DefaultNumOfSimilarImages: int := 1
  const DefaultKnn: int := 1
  const DefaultSplitMethod: SplitMethod := MaxSpread
  const DefaultLoggerLevel: int := 3
  const DefaultLoggerFilename: string := "stdout"

  /** The values spConfigSetDefaultValues stores. */
  const Defaults: Settings :=
    Settings(DefaultStr, DefaultStr, DefaultStr, DefaultInt, DefaultPcaDim, DefaultPcaFilename,
             DefaultNumOfFeatures, DefaultExtractMode, DefaultNumOfSimilarImages, SplitCode(DefaultSplitMethod),
             DefaultKnn, DefaultMinimalGui, DefaultLoggerLevel, DefaultLoggerFilename)

  /** One line of a configuration file, classified by the tokeniser. */
  datatype Line =
    | Comment                          // a line whose first word starts with '#'
    | Malformed                        // blank, no '=', or more than one word or '='
    | Pair(key: string, value: string) // "key = value"

  // ---------------------------------------------------------------- numbers

  predicate IsDigit(c: char) {
    '0' <= c <= '9'
  }

  predicate AllDigits(s: string) {
    forall i :: 0 <= i < |s| ==> IsDigit(s[i])
  }

  /** isNumber: true exactly when every character is a decimal digit. */
  method IsNumber(num: string) returns (b: bool)
    ensures b <==> AllDigits(num)
  {
    for i := 0 to |num|
      invariant AllDigits(num[..i])
    {
      if !IsDigit(num[i]) {
        return false;
      }
    }
    assert num[..|num|] == num;
    return true;
  }

  /** What atoi yields for a string of decimal digits (0 for ""). */
  function DecimalValue(s: string): nat
    requires AllDigits(s)
    decreases |s|
  {
    if s == [] then 0
    else DecimalValue(s[..|s| - 1]) * 10 + (s[|s| - 1] as int - '0' as int)
  }

  function Digit(d: nat): char
    requires d < 10
  {
    ('0' as int + d) as char
  }

  /** The decimal digits of a natural number, without leading zeros. */
  function NatDigits(n: nat): string
    decreases n
  {
    if n < 10 then [Digit(n)] else NatDigits(n / 10) + [Digit(n % 10)]
  }

  /** What printf's %d writes for an integer. */
  function Decimal(n: int): string {
    if n < 0 then "-" + NatDigits(-n) else NatDigits(n)
  }

  /** Reading back the digits printed for a number gives the number. */
  lemma {:induction false} DecimalRoundTrip(n: nat)
    ensures |NatDigits(n)| > 0
    ensures AllDigits(NatDigits(n))
    ensures DecimalValue(NatDigits(n)) == n
    decreases n
  {
    if n >= 10 {
      DecimalRoundTrip(n / 10);
      var s := NatDigits(n);
      assert s[..|s| - 1] == NatDigits(n / 10);
    }
  }

  // ------------------------------------------------------- per-key rules

  predicate IsImageSuffix(v: string) {
    v == ".jpg" || v == ".png" || v == ".bmp" || v == ".gif"
  }

  /** The recognised keys. */
  datatype Key =
    | ImagesDirectory | ImagesPrefix | ImagesSuffix | NumOfImages | PCADimension | PCAFilename
    | NumOfFeatures | ExtractionMode | NumOfSimilarImages | KDTreeSplitMethod | KNN | MinimalGUI
    | LoggerLevelKey | LoggerFilename

  /** The chain of name comparisons in spConfigGetVariables; None for an unknown key. */
  function KeyOf(s: string): Option<Key> {
    if s == "spImagesDirectory" then Some(ImagesDirectory)
    else if s == "spImagesPrefix" then Some(ImagesPrefix)
    else if s == "spImagesSuffix" then Some(ImagesSuffix)
    else if s == "spNumOfImages" then Some(NumOfImages)
    else if s == "spPCADimension" then Some(PCADimension)
    else if s == "spPCAFilename" then Some(PCAFilename)
    else if s == "spNumOfFeatures" then Some(NumOfFeatures)
    else if s == "spExtractionMode" then Some(ExtractionMode)
    else if s == "spNumOfSimilarImages" then Some(NumOfSimilarImages)
    else if s == "spKDTreeSplitMethod" then Some(KDTreeSplitMethod)
    else if s == "spKNN" then Some(KNN)
    else if s == "spMinimalGUI" then Some(MinimalGUI)
    else if s == "spLoggerLevel" then Some(LoggerLevelKey)
    else if s == "spLoggerFilename" then Some(LoggerFilename)
    else None
  }

  /** The effect of one "key = value" line on the settings. */
  datatype Outcome = Assigned(settings: Settings) | Unknown | Rejected(msg: Msg)

  /** The branch of spConfigGetVariables that handles one recognised key. */
  function AssignKey(st: Settings, k: Key, v: string): Outcome {
    match k
    case ImagesDirectory => Assigned(st.(imagesDirectory := v))
    case ImagesPrefix => Assigned(st.(imagesPrefix := v))
    case ImagesSuffix =>
      if IsImageSuffix(v) then Assigned(st.(imagesSuffix := v)) else Rejected(InvalidString)
    case NumOfImages =>
      if AllDigits(v) && DecimalValue(v) > 0 then Assigned(st.(numOfImages := DecimalValue(v)))
      else Rejected(InvalidInteger)
    case PCADimension =>
      if AllDigits(v) && 10 <= DecimalValue(v) <= 28 then Assigned(st.(pcaDimension := DecimalValue(v)))
      else Rejected(InvalidInteger)
    case PCAFilename => Assigned(st.(pcaFilename := v))
    case NumOfFeatures =>
      if AllDigits(v) && DecimalValue(v) > 0 then Assigned(st.(numOfFeatures := DecimalValue(v)))
      else Rejected(InvalidInteger)
    case ExtractionMode =>
      if v == "true" then Assigned(st.(extractionMode := true))
      else if v == "false" then Assigned(st.(extractionMode := false))
      else Rejected(InvalidString)
    case NumOfSimilarImages =>
      if AllDigits(v) && DecimalValue(v) > 0 then Assigned(st.(numOfSimilarImages := DecimalValue(v)))
      else Rejected(InvalidInteger)
    case KDTreeSplitMethod =>
      if v == "RANDOM" then Assigned(st.(kdTreeSplitMethod := SplitCode(Random)))
      else if v == "MAX_SPREAD" then Assigned(st.(kdTreeSplitMethod := SplitCode(MaxSpread)))
      else if v == "INCREMENTAL" then Assigned(st.(kdTreeSplitMethod := SplitCode(Incremental)))
      else Rejected(InvalidString)
    case KNN =>
      if AllDigits(v) && DecimalValue(v) > 0 then Assigned(st.(knn := DecimalValue(v)))
      else Rejected(InvalidInteger)
    case MinimalGUI =>
      if v == "true" then Assigned(st.(minimalGui := true))
      else if v == "false" then Assigned(st.(minimalGui := false))
      else Rejected(InvalidString)
    case LoggerLevelKey =>
      if AllDigits(v) && 1 <= DecimalValue(v) <= 4 then Assigned(st.(loggerLevel := DecimalValue(v)))
      else Rejected(InvalidInteger)
    case LoggerFilename => Assigned(st.(loggerFilename := v))
  }

  /** One "key = value" line: an unknown key changes nothing. */
  function Assign(st: Settings, key: string, v: string): Outcome {
    match KeyOf(key)
    case None => Unknown
    case Some(k) => AssignKey(st, k, v)
  }

  /** The keys whose value must be a decimal number. */
  const IntegerKeys: set<Key> :=
    {NumOfImages, PCADimension, NumOfFeatures, NumOfSimilarImages, KNN, LoggerLevelKey}

  /** The keys whose value must be one of a fixed set of words. */
  const WordKeys: set<Key> := {ImagesSuffix, ExtractionMode, KDTreeSplitMethod, MinimalGUI}

  /** The keys whose value is stored as given. */
  const TextKeys: set<Key> := {ImagesDirectory, ImagesPrefix, PCAFilename, LoggerFilename}

  /** The accepted range of each numeric key. */
  predicate InBounds(k: Key, n: int) {
    if k == PCADimension then 10 <= n <= 28
    else if k == LoggerLevelKey then 1 <= n <= 4
    else n > 0
  }

  /** The accepted words of each word key. */
  function Words(k: Key): set<string> {
    if k == ImagesSuffix then {".jpg", ".png", ".bmp", ".gif"}
    else if k == KDTreeSplitMethod then {"RANDOM", "MAX_SPREAD", "INCREMENTAL"}
    else {"true", "false"}
  }

  /** A numeric key is rejected, with INVALID_INTEGER, exactly when its value is not a number in range. */
  lemma IntegerKeyRule(st: Settings, k: Key, v: string)
    requires k in IntegerKeys
    ensures AssignKey(st, k, v).Rejected? <==> !(AllDigits(v) && InBounds(k, DecimalValue(v)))
    ensures AssignKey(st, k, v).Rejected? ==> AssignKey(st, k, v).msg == InvalidInteger
  {
  }

  /** A word key is rejected, with INVALID_STRING, exactly when its value is not one of its words. */
  lemma WordKeyRule(st: Settings, k: Key, v: string)
    requires k in WordKeys
    ensures AssignKey(st, k, v).Rejected? <==> v !in Words(k)
    ensures AssignKey(st, k, v).Rejected? ==> AssignKey(st, k, v).msg == InvalidString
  {
  }

  /** A text key always stores its value, and unknown names change nothing. */
  lemma OtherKeyRule(st: Settings, key: string, v: string)
    ensures KeyOf(key).Some? && KeyOf(key).value in TextKeys ==> Assign(st, key, v).Assigned?
    ensures KeyOf(key).None? <==> Assign(st, key, v) == Unknown
  {
  }

  /** The properties every accepted value gives its field. */
  predicate Constrained(st: Settings) {
    && st.numOfImages >= 0
    && 10 <= st.pcaDimension <= 28
    && st.numOfFeatures > 0
    && st.numOfSimilarImages > 0
    && 0 <= st.kdTreeSplitMethod <= 2
    && st.knn > 0
    && 1 <= st.loggerLevel <= 4
    && (st.imagesSuffix == "" || IsImageSuffix(st.imagesSuffix))
  }

  /** An accepted assignment keeps the settings constrained and changes only its key's field. */
  lemma AssignConstrained(st: Settings, k: Key, v: string)
    requires Constrained(st) && AssignKey(st, k, v).Assigned?
    ensures Constrained(AssignKey(st, k, v).settings)
    ensures k != ImagesDirectory ==> AssignKey(st, k, v).settings.imagesDirectory == st.imagesDirectory
    ensures k != ImagesPrefix ==> AssignKey(st, k, v).settings.imagesPrefix == st.imagesPrefix
    ensures k != ImagesSuffix ==> AssignKey(st, k, v).settings.imagesSuffix == st.imagesSuffix
    ensures k != NumOfImages ==> AssignKey(st, k, v).settings.numOfImages == st.numOfImages
  {
  }

  // ------------------------------------------------------- reading lines

  /** The end of the line loop: the settings and the line counter on success, or the error. */
  datatype ReadResult =
    | Read(settings: Settings, lineNumber: int)
    | ReadError(msg: Msg, lineNumber: int)

  /**
   * The line loop of spConfigGetVariables. Comment lines and accepted
   * pairs advance the line counter; a pair with an unknown key does not.
   */
  function ReadLines(st: Settings, lines: seq<Line>, lineNumber: int): ReadResult
    decreases |lines|
  {
    if lines == [] then Read(st, lineNumber)
    else
      match lines[0]
      case Comment => ReadLines(st, lines[1..], lineNumber + 1)
      case Malformed => ReadError(InvalidString, lineNumber)
      case Pair(key, v) =>
        match Assign(st, key, v)
        case Assigned(next) => ReadLines(next, lines[1..], lineNumber + 1)
        case Unknown => ReadLines(st, lines[1..], lineNumber)
        case Rejected(m) => ReadError(m, lineNumber)
  }

  /** Reading keeps the settings constrained, never clears a mandatory field and never lowers the line counter. */
  lemma {:induction false} ReadConstrained(st: Settings, lines: seq<Line>, lineNumber: int)
    requires Constrained(st)
    ensures ReadLines(st, lines, lineNumber).lineNumber >= lineNumber
    ensures ReadLines(st, lines, lineNumber).Read? ==> Constrained(ReadLines(st, lines, lineNumber).settings)
    decreases |lines|
  {
    if lines != [] {
      match lines[0]
      case Comment =>
        ReadConstrained(st, lines[1..], lineNumber + 1);
      case Malformed =>
      case Pair(key, v) =>
        match Assign(st, key, v)
        case Assigned(next) =>
          AssignConstrained(st, KeyOf(key).value, v);
          ReadConstrained(next, lines[1..], lineNumber + 1);
        case Unknown =>
          ReadConstrained(st, lines[1..], lineNumber);
        case Rejected(m) =>
    }
  }

  /** A pair with an unrecognised key leaves both the settings and the line counter as they were. */
  lemma UnknownKeySkipped(st: Settings, key: string, v: string, rest: seq<Line>, lineNumber: int)
    requires KeyOf(key).None?
    ensures ReadLines(st, [Pair(key, v)] + rest, lineNumber) == ReadLines(st, rest, lineNumber)
  {
    assert ([Pair(key, v)] + rest)[1..] == rest;
  }

  // ------------------------------------------------ mandatory fields

  /** spConfigCheckVariablesInitialized: the first unset mandatory field, in its checking order. */
  function MissingField(st: Settings): (r: Option<Msg>)
    ensures r == None <==>
      st.imagesDirectory != "" && st.imagesPrefix != "" && st.imagesSuffix != "" && st.numOfImages != 0
    ensures r == Some(MissingDir) <==> st.imagesDirectory == ""
    ensures r == Some(MissingPrefix) <==> st.imagesDirectory != "" && st.imagesPrefix == ""
    ensures r == Some(MissingSuffix) <==>
      st.imagesDirectory != "" && st.imagesPrefix != "" && st.imagesSuffix == ""
    ensures r == Some(MissingNumImages) <==>
      st.imagesDirectory != "" && st.imagesPrefix != "" && st.imagesSuffix != "" && st.numOfImages == 0
  {
    if st.imagesDirectory == "" then Some(MissingDir)
    else if st.imagesPrefix == "" then Some(MissingPrefix)
    else if st.imagesSuffix == "" then Some(MissingSuffix)
    else if st.numOfImages == 0 then Some(MissingNumImages)
    else None
  }

  /** The final step of spConfigCreate. */
  function Clamp(st: Settings): Settings {
    if st.numOfSimilarImages > st.numOfImages then st.(numOfSimilarImages := st.numOfImages) else st
  }

  /**
   * spConfigCreate: the settings it returns (None for NULL) and the message it
   * stores. `file` is None when the file cannot be opened.
   */
  function CreateSpec(filename: Option<string>, file: Option<seq<Line>>): (Option<Settings>, Msg) {
    if filename.None? then (None, InvalidArgument)
    else if file.None? then (None, CannotOpenFile)
    else
      match ReadLines(Defaults, file.value, 1)
      case ReadError(m, _) => (None, m)
      case Read(st, _) =>
        match MissingField(st)
        case Some(m) => (None, m)
        case None => (Some(Clamp(st)), Success)
  }

  /**
   * A created configuration has every mandatory field set, satisfies every
   * per-key constraint, and asks for between 1 and numOfImages similar images;
   * the clamp changes nothing but the number of similar images, and that only
   * when it exceeded the number of images.
   */
  lemma CreateSound(filename: Option<string>, file: Option<seq<Line>>)
    requires CreateSpec(filename, file).0.Some?
    ensures var st := CreateSpec(filename, file).0.value;
      && Constrained(st)
      && st.imagesDirectory != "" && st.imagesPrefix != "" && IsImageSuffix(st.imagesSuffix)
      && st.numOfImages > 0
      && 1 <= st.numOfSimilarImages <= st.numOfImages
    ensures var read := ReadLines(Defaults, file.value, 1).settings;
      var st := CreateSpec(filename, file).0.value;
      && st == read.(numOfSimilarImages := st.numOfSimilarImages)
      && st.numOfSimilarImages == (if read.numOfSimilarImages > read.numOfImages then read.numOfImages else read.numOfSimilarImages)
  {
    ReadConstrained(Defaults, file.value, 1);
  }

  /** When reading succeeds, the message is exactly the first missing mandatory field, if any. */
  lemma CreateReportsMissing(filename: string, lines: seq<Line>)
    requires ReadLines(Defaults, lines, 1).Read?
    ensures var st := ReadLines(Defaults, lines, 1).settings;
      CreateSpec(Some(filename), Some(lines)).1 == (if MissingField(st).Some? then MissingField(st).value else Success)
  {
  }

  /**
   * A file that sets only the four mandatory keys yields the defaults for
   * everything else, as the default-values unit test expects.
   */
  lemma CreateWithDefaults()
    ensures var lines := [
        Comment,
        Pair("spImagesDirectory", "./images/"),
        Pair("spImagesPrefix", "img"),
        Pair("spImagesSuffix", ".png"),
        Pair("spNumOfImages", "17")];
      var r := CreateSpec(Some("spcbir.config"), Some(lines));
      && r.1 == Success
      && r.0 == Some(Defaults.(imagesDirectory := "./images/", imagesPrefix := "img",
                               imagesSuffix := ".png", numOfImages := 17))
  {
    var lines := [
      Comment,
      Pair("spImagesDirectory", "./images/"),
      Pair("spImagesPrefix", "img"),
      Pair("spImagesSuffix", ".png"),
      Pair("spNumOfImages", "17")];
    assert "17"[..1] == "1";
    assert DecimalValue("17") == 17;
    assert lines[1..][1..][1..][1..][1..] == [];
  }

  // ---------------------------------------------------------- mappings

  /** The switch of spConfigGetLoggerLevel. */
  function LevelOf(level: int): LoggerLevel {
    if level == 1 then ErrorLevel
    else if level == 2 then WarningErrorLevel
    else if level == 3 then InfoWarningErrorLevel
    else DebugInfoWarningErrorLevel
  }

  /** The switch of spConfigGetKDTreeSplitMethod. */
  function SplitMethodOf(code: int): SplitMethod {
    if code == 0 then MaxSpread
    else if code == 1 then Random
    else if code == 2 then Incremental
    else MaxSpread
  }

  /** The levels 1 to 4 map one-to-one onto the four logger levels; every other value means DEBUG. */
  lemma LevelOfOneToOne(a: int, b: int, l: LoggerLevel)
    ensures 1 <= a <= 4 && 1 <= b <= 4 && LevelOf(a) == LevelOf(b) ==> a == b
    ensures exists n :: 1 <= n <= 4 && LevelOf(n) == l
    ensures !(1 <= a <= 3) ==> LevelOf(a) == DebugInfoWarningErrorLevel
  {
    match l
    case ErrorLevel => assert LevelOf(1) == l;
    case WarningErrorLevel => assert LevelOf(2) == l;
    case InfoWarningErrorLevel => assert LevelOf(3) == l;
    case DebugInfoWarningErrorLevel => assert LevelOf(4) == l;
  }

  /** The getter's switch inverts the value C gives each split method; unknown codes mean MAX_SPREAD. */
  lemma SplitMethodRoundTrip(m: SplitMethod, code: int)
    ensures SplitMethodOf(SplitCode(m)) == m
    ensures !(0 <= code <= 2) ==> SplitMethodOf(code) == MaxSpread
  {
  }

  // ------------------------------------------------------ the struct

  /** The configuration struct; spConfigCreate allocates one and fills it. */
  class Config {
    var imagesDirectory: string
    var imagesPrefix: string
    var imagesSuffix: string
    var numOfImages: int
    var pcaDimension: int
    var pcaFilename: string
    var numOfFeatures: int
    var extractionMode: bool
    var numOfSimilarImages: int
    var kdTreeSplitMethod: int
    var knn: int
    var minimalGui: bool
    var loggerLevel: int
    var loggerFilename: string

    /** The struct's fields as a value. */
    function Snapshot(): Settings
      reads this
    {
      Settings(imagesDirectory, imagesPrefix, imagesSuffix, numOfImages, pcaDimension, pcaFilename,
               numOfFeatures, extractionMode, numOfSimilarImages, kdTreeSplitMethod, knn, minimalGui,
               loggerLevel, loggerFilename)
    }

    /** The allocation; its fields hold no promised values yet. */
    constructor ()
    {
    }

    /** spConfigSetDefaultValues. */
    method SetDefaultValues()
      modifies this
      ensures Snapshot() == Defaults
    {
      pcaDimension := DefaultPcaDim;
      pcaFilename := DefaultPcaFilename;
      numOfFeatures := DefaultNumOfFeatures;
      extractionMode := DefaultExtractMode;
      minimalGui := DefaultMinimalGui;
      numOfSimilarImages := DefaultNumOfSimilarImages;
      knn := DefaultKnn;
      kdTreeSplitMethod := SplitCode(DefaultSplitMethod);
      loggerLevel := DefaultLoggerLevel;
      loggerFilename := DefaultLoggerFilename;
      imagesDirectory := DefaultStr;
      imagesPrefix := DefaultStr;
      imagesSuffix := DefaultStr;
      numOfImages := DefaultInt;
    }

    /** Reads a numeric value as spConfigGetVariables does: isNumber, then atoi. */
    static method ParseNumber(v: string) returns (n: Option<nat>)
      ensures n == if AllDigits(v) then Some(DecimalValue(v)) else None
    {
      var isNum := IsNumber(v);
      if isNum {
        n := Some(DecimalValue(v));
      } else {
        n := None;
      }
    }

    /**
     * The per-key branch of spConfigGetVariables for one "key = value" line:
     * the fields change as Assign says, and the result tells whether the key
     * was recognised and, if the value was refused, why.
     */
    method ApplyPair(key: string, v: string) returns (known: bool, err: Option<Msg>)
      modifies this
      ensures var o := Assign(old(Snapshot()), key, v);
        && known == !o.Unknown?
        && err == (if o.Rejected? then Some(o.msg) else None)
        && Snapshot() == (if o.Assigned? then o.settings else old(Snapshot()))
    {
      var k := KeyOf(key);
      if k.None? {
        return false, None;
      }
      known := true;
      if k.value in TextKeys {
        ApplyText(k.value, v);
        err := None;
      } else if k.value in WordKeys {
        err := ApplyWord(k.value, v);
      } else {
        err := ApplyNumber(k.value, v);
      }
    }

    /** The keys whose value is copied as given. */
    method ApplyText(k: Key, v: string)
      requires k in TextKeys
      modifies this
      ensures AssignKey(old(Snapshot()), k, v) == Assigned(Snapshot())
    {
      match k {
        case ImagesDirectory =>
          imagesDirectory := v;
        case ImagesPrefix =>
          imagesPrefix := v;
        case PCAFilename =>
          pcaFilename := v;
        case LoggerFilename =>
          loggerFilename := v;
      }
    }

    /** The keys whose value must be one of a few words. */
    method ApplyWord(k: Key, v: string) returns (err: Option<Msg>)
      requires k in WordKeys
      modifies this
      ensures var o := AssignKey(old(Snapshot()), k, v);
        && err == (if o.Rejected? then Some(o.msg) else None)
        && Snapshot() == (if o.Assigned? then o.settings else old(Snapshot()))
    {
      err := None;
      match k {
        case ImagesSuffix =>
          if IsImageSuffix(v) {
            imagesSuffix := v;
          } else {
            err := Some(InvalidString);
          }
        case ExtractionMode =>
          if v == "true" {
            extractionMode := true;
          } else if v == "false" {
            extractionMode := false;
          } else {
            err := Some(InvalidString);
          }
        case KDTreeSplitMethod =>
          if v == "RANDOM" {
            kdTreeSplitMethod := SplitCode(Random);
          } else if v == "MAX_SPREAD" {
            kdTreeSplitMethod := SplitCode(MaxSpread);
          } else if v == "INCREMENTAL" {
            kdTreeSplitMethod := SplitCode(Incremental);
          } else {
            err := Some(InvalidString);
          }
        case MinimalGUI =>
          if v == "true" {
            minimalGui := true;
          } else if v == "false" {
            minimalGui := false;
          } else {
            err := Some(InvalidString);
          }
      }
    }

    /** The keys whose value must be a decimal number within the key's range. */
    method ApplyNumber(k: Key, v: string) returns (err: Option<Msg>)
      requires k in IntegerKeys
      modifies this
      ensures var o := AssignKey(old(Snapshot()), k, v);
        && err == (if o.Rejected? then Some(o.msg) else None)
        && Snapshot() == (if o.Assigned? then o.settings else old(Snapshot()))
    {
      var n := ParseNumber(v);
      err := None;
      match k {
        case NumOfImages =>
          if n.Some? && n.value > 0 {
            numOfImages := n.value;
          } else {
            err := Some(InvalidInteger);
          }
        case PCADimension =>
          if n.Some? && 10 <= n.value <= 28 {
            pcaDimension := n.value;
          } else {
            err := Some(InvalidInteger);
          }
        case NumOfFeatures =>
          if n.Some? && n.value > 0 {
            numOfFeatures := n.value;
          } else {
            err := Some(InvalidInteger);
          }
        case NumOfSimilarImages =>
          if n.Some? && n.value > 0 {
            numOfSimilarImages := n.value;
          } else {
            err := Some(InvalidInteger);
          }
        case KNN =>
          if n.Some? && n.value > 0 {
            knn := n.value;
          } else {
            err := Some(InvalidInteger);
          }
        case LoggerLevelKey =>
          if n.Some? && 1 <= n.value <= 4 {
            loggerLevel := n.value;
          } else {
            err := Some(InvalidInteger);
          }
      }
    }

    /**
     * spConfigGetVariables: reads the lines in order, updating the fields and
     * the line counter, and stops at the first refused line.
     */
    method GetVariables(lines: seq<Line>, lineNumber: int) returns (err: Option<Msg>, lineAfter: int)
      modifies this
      ensures var r := ReadLines(old(Snapshot()), lines, lineNumber);
        && lineAfter == r.lineNumber
        && err == (if r.ReadError? then Some(r.msg) else None)
        && (r.Read? ==> Snapshot() == r.settings)
    {
      lineAfter := lineNumber;
      var i := 0;
      while i < |lines|
        invariant 0 <= i <= |lines|
        invariant ReadLines(Snapshot(), lines[i..], lineAfter) == ReadLines(old(Snapshot()), lines, lineNumber)
        decreases |lines| - i
      {
        assert lines[i..][0] == lines[i] && lines[i..][1..] == lines[i + 1..];
        match lines[i] {
          case Comment =>
            lineAfter := lineAfter + 1;
          case Malformed =>
            return Some(InvalidString), lineAfter;
          case Pair(key, v) =>
            var known, e := ApplyPair(key, v);
            if e.Some? {
              return e, lineAfter;
            }
            if known {
              lineAfter := lineAfter + 1;
            }
        }
        i := i + 1;
      }
      assert lines[i..] == [];
      return None, lineAfter;
    }

    /**
     * spConfigCreate. `file` is None when the file cannot be opened; the
     * returned configuration is null whenever the message is not SUCCESS.
     */
    static method Create(filename: Option<string>, file: Option<seq<Line>>) returns (config: Config?, msg: Msg)
      ensures msg == CreateSpec(filename, file).1
      ensures config == null <==> CreateSpec(filename, file).0.None?
      ensures config != null ==> fresh(config) && config.Snapshot() == CreateSpec(filename, file).0.value
    {
      if filename.None? {
        return null, InvalidArgument;
      }
      if file.None? {
        return null, CannotOpenFile;
      }
      var c := new Config();
      c.SetDefaultValues();
      var err, lineNumber := c.GetVariables(file.value, 1);
      if err.Some? {
        return null, err.value;
      }
      var missing := MissingField(c.Snapshot());
      if missing.Some? {
        return null, missing.value;
      }
      if c.numOfSimilarImages > c.numOfImages {
        c.numOfSimilarImages := c.numOfImages;
      }
      return c, Success;
    }
  }

  // ----------------------------------------------------------- getters

  /** spConfigGetLoggerLevel: ERROR_LEVEL and INVALID_ARGUMENT for a null config. */
  function GetLoggerLevel(config: Config?): (LoggerLevel, Msg)
    reads config
  {
    if config == null then (ErrorLevel, InvalidArgument) else (LevelOf(config.loggerLevel), Success)
  }

  /** spConfigGetKDTreeSplitMethod: MAX_SPREAD and INVALID_ARGUMENT for a null config. */
  function GetKDTreeSplitMethod(config: Config?): (SplitMethod, Msg)
    reads config
  {
    if config == null then (MaxSpread, InvalidArgument) else (SplitMethodOf(config.kdTreeSplitMethod), Success)
  }

  /** The getters report the value stored in a created configuration, with SUCCESS. */
  lemma GettersOfCreated(config: Config, m: SplitMethod, level: int)
    requires config.kdTreeSplitMethod == SplitCode(m) && config.loggerLevel == level
    ensures GetKDTreeSplitMethod(config) == (m, Success)
    ensures 1 <= level <= 4 ==> GetLoggerLevel(config).0 == LevelOf(level) && GetLoggerLevel(config).1 == Success
  {
  }

  /**
   * The path written by spConfigGetImagePath (suffix = the images suffix) and
   * spConfigGetFeatsPath (suffix = ".feats"); None when nothing is written.
   */
  function IndexedPath(config: Config?, hasBuffer: bool, index: int, suffix: string): (Msg, Option<string>)
    reads config
  {
    if !hasBuffer || config == null then (InvalidArgument, None)
    else if index >= config.numOfImages then (IndexOutOfRange, None)
    else (Success, Some(config.imagesDirectory + config.imagesPrefix + Decimal(index) + suffix))
  }

  /** spConfigGetImagePath; `hasBuffer` is false for a null output buffer. */
  function GetImagePath(config: Config?, hasBuffer: bool, index: int): (Msg, Option<string>)
    reads config
  {
    IndexedPath(config, hasBuffer, index, if config == null then "" else config.imagesSuffix)
  }

  /** spConfigGetFeatsPath; `hasBuffer` is false for a null output buffer. */
  function GetFeatsPath(config: Config?, hasBuffer: bool, index: int): (Msg, Option<string>)
    reads config
  {
    IndexedPath(config, hasBuffer, index, ".feats")
  }

  /** spConfigGetPCAPath; `hasBuffer` is false for a null output buffer. */
  function GetPCAPath(config: Config?, hasBuffer: bool): (Msg, Option<string>)
    reads config
  {
    if !hasBuffer || config == null then (InvalidArgument, None)
    else (Success, Some(config.imagesDirectory + config.pcaFilename))
  }

  /**
   * For a non-negative index below the number of images, the path is the
   * directory, the prefix, the index's digits and the suffix, and the digits
   * read back as the index; indices at or above the count are out of range.
   */
  lemma IndexedPathParts(config: Config, index: int, suffix: string)
    requires 0 <= index
    ensures IndexedPath(config, true, index, suffix).0 == Success <==> index < config.numOfImages
    ensures IndexedPath(config, true, index, suffix).0 == IndexOutOfRange <==> index >= config.numOfImages
    ensures index < config.numOfImages ==>
      var p := IndexedPath(config, true, index, suffix).1.value;
      var a := |config.imagesDirectory| + |config.imagesPrefix|;
      var b := |p| - |suffix|;
      && a < b <= |p|
      && p[..|config.imagesDirectory|] == config.imagesDirectory
      && p[|config.imagesDirectory|..a] == config.imagesPrefix
      && p[b..] == suffix
      && AllDigits(p[a..b])
      && DecimalValue(p[a..b]) == index
  {
    DecimalRoundTrip(index);
    if index < config.numOfImages {
      var dir, prefix := config.imagesDirectory, config.imagesPrefix;
      var digits := NatDigits(index);
      var p := dir + prefix + digits + suffix;
      assert IndexedPath(config, true, index, suffix).1.value == p;
      var a := |dir| + |prefix|;
      assert p[..|dir|] == dir;
      assert p[|dir|..a] == prefix;
      assert p[a..|p| - |suffix|] == digits;
      assert p[|p| - |suffix|..] == suffix;
    }
  }

  /**
   * Only indices at or above the number of images are rejected, so with a
   * non-negative count a negative index is accepted: the path then holds a
   * minus sign after the prefix, followed by the digits of its magnitude.
   */
  lemma NegativeIndexPath(config: Config, index: int, suffix: string)
    requires index < 0 <= config.numOfImages
    ensures IndexedPath(config, true, index, suffix).0 == Success
    ensures var p := IndexedPath(config, true, index, suffix).1.value;
      var a := |config.imagesDirectory| + |config.imagesPrefix|;
      var b := |p| - |suffix|;
      && a + 1 < b <= |p|
      && p[..a] == config.imagesDirectory + config.imagesPrefix
      && p[a] == '-'
      && AllDigits(p[a + 1..b])
      && DecimalValue(p[a + 1..b]) == -index
      && p[b..] == suffix
  {
    DecimalRoundTrip(-index);
    var head := config.imagesDirectory + config.imagesPrefix;
    var digits := NatDigits(-index);
    var p := IndexedPath(config, true, index, suffix).1.value;
    assert p == (head + "-") + digits + suffix;
    ThreeParts(head + "-", digits, suffix);
    assert p[..|head|] == (head + "-")[..|head|] == head;
  }

  /** The pieces of a three-part concatenation are its slices. */
  lemma ThreeParts(u: string, v: string, w: string)
    ensures var s := u + v + w;
      s[..|u|] == u && s[|u|..|u| + |v|] == v && s[|u| + |v|..] == w
  {
  }

  /**
   * spConfigGetFeatsPath: INVALID_ARGUMENT for a null buffer or config, then
   * INDEX_OUT_OF_RANGE at or above the number of images; otherwise the image
   * path of the same index with the images suffix replaced by ".feats", whose
   * digits read back as a non-negative index.
   */
  lemma FeatsPathParts(config: Config?, hasBuffer: bool, index: int)
    ensures GetFeatsPath(config, hasBuffer, index).0 == InvalidArgument <==> !hasBuffer || config == null
    ensures hasBuffer && config != null ==>
      (GetFeatsPath(config, hasBuffer, index).0 == IndexOutOfRange <==> index >= config.numOfImages)
    ensures GetFeatsPath(config, hasBuffer, index).1.Some? <==> GetFeatsPath(config, hasBuffer, index).0 == Success
    ensures hasBuffer && config != null && index < config.numOfImages ==>
      var p := GetFeatsPath(config, true, index).1.value;
      var q := GetImagePath(config, true, index).1.value;
      var a := |config.imagesDirectory| + |config.imagesPrefix|;
      && a + 6 < |p| && |config.imagesSuffix| <= |q|
      && p[|p| - 6..] == ".feats"
      && p[..|p| - 6] == q[..|q| - |config.imagesSuffix|]
      && (0 <= index ==> AllDigits(p[a..|p| - 6]) && DecimalValue(p[a..|p| - 6]) == index)
  {
    if hasBuffer && config != null && index < config.numOfImages {
      var stem := config.imagesDirectory + config.imagesPrefix + Decimal(index);
      var p := GetFeatsPath(config, true, index).1.value;
      var q := GetImagePath(config, true, index).1.value;
      assert p == stem + ".feats";
      assert q == stem + config.imagesSuffix;
      assert p[..|p| - 6] == stem;
      assert q[..|q| - |config.imagesSuffix|] == stem;
      if 0 <= index {
        IndexedPathParts(config, index, ".feats");
      } else {
        DecimalRoundTrip(-index);
      }
    }
  }

  /** Two different in-range indices never share an image path. */
  lemma ImagePathsDistinct(config: Config, i: int, j: int)
    requires 0 <= i < config.numOfImages && 0 <= j < config.numOfImages && i != j
    ensures GetImagePath(config, true, i).1 != GetImagePath(config, true, j).1
  {
    IndexedPathParts(config, i, config.imagesSuffix);
    IndexedPathParts(config, j, config.imagesSuffix);
  }

  /** The PCA path is the images directory followed by the PCA file name. */
  lemma PCAPathParts(config: Config)
    ensures GetPCAPath(config, true).0 == Success
    ensures var p := GetPCAPath(config, true).1.value;
      p[..|config.imagesDirectory|] == config.imagesDirectory
      && p[|config.imagesDirectory|..] == config.pcaFilename
  {
  }
}
