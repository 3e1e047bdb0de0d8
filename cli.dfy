// The command-line string parsers of the converter: face-transform letters,
// the "in:out" format specification with its fall-back to file extensions,
// the argument and skew-map checks of model transformations, the property
// flags, and the packing of order-sensitive options into actions.
// A thrown CLIError is a Failure carrying its message.
module Cli {
  import opened Wrappers
  import opened Text

  // ---------------------------------------------------------------------
  // parse_face_transforms

  datatype FaceTransforms = FaceTransforms(convexify: bool, triangulate: bool)

  /** The error one comma-separated face-transform command raises, if any. */
  function CommandError(cmd: string): Option<string>
  {
    if |cmd| != 1 then Some("Invalid face transformation: " + cmd)
    else if cmd == "c" || cmd == "t" then None
    else Some("Unknown face transformation: " + cmd)
  }

  /** The outcome of processing the commands front to back. */
  function FaceTransformsOf(cmds: seq<string>): Result<FaceTransforms, string>
  {
    if |cmds| == 0 then Success(FaceTransforms(false, false))
    else if CommandError(cmds[0]).Some? then Failure(CommandError(cmds[0]).value)
    else match FaceTransformsOf(cmds[1..])
      case Failure(e) => Failure(e)
      case Success(ft) =>
        Success(FaceTransforms(ft.convexify || cmds[0] == "c", ft.triangulate || cmds[0] == "t"))
  }

  predicate FirstBadCommand(cmds: seq<string>, k: int)
  {
    0 <= k < |cmds| && CommandError(cmds[k]).Some? &&
    forall j :: 0 <= j < k ==> CommandError(cmds[j]).None?
  }

  /**
   * The commands are accepted exactly when each is the letter c or t; the
   * flags then say which letters occur; otherwise the first bad command
   * names the error.
   */
  lemma {:induction false} FaceTransformsMeaning(cmds: seq<string>)
    ensures FaceTransformsOf(cmds).Success? <==>
      forall k :: 0 <= k < |cmds| ==> cmds[k] == "c" || cmds[k] == "t"
    ensures FaceTransformsOf(cmds).Success? ==>
      FaceTransformsOf(cmds).value == FaceTransforms("c" in cmds, "t" in cmds)
    ensures FaceTransformsOf(cmds).Failure? ==>
      exists k :: FirstBadCommand(cmds, k) && FaceTransformsOf(cmds).error == CommandError(cmds[k]).value
  {
    if |cmds| > 0 {
      FaceTransformsMeaning(cmds[1..]);
      assert cmds == [cmds[0]] + cmds[1..];
      if CommandError(cmds[0]).Some? {
        assert FirstBadCommand(cmds, 0);
      } else if FaceTransformsOf(cmds[1..]).Failure? {
        var k :| FirstBadCommand(cmds[1..], k) &&
          FaceTransformsOf(cmds[1..]).error == CommandError(cmds[1..][k]).value;
        assert FirstBadCommand(cmds, k + 1);
      }
    }
  }

  /** Only which letters occur matters, not their order or repetition. */
  lemma LettersOnly(a: seq<string>, b: seq<string>)
    requires forall c :: c in a <==> c in b
    ensures FaceTransformsOf(a).Success? <==> FaceTransformsOf(b).Success?
    ensures FaceTransformsOf(a).Success? ==> FaceTransformsOf(a) == FaceTransformsOf(b)
  {
    FaceTransformsMeaning(a);
    FaceTransformsMeaning(b);
    assert forall k :: 0 <= k < |b| ==> b[k] in a;
    assert forall k :: 0 <= k < |a| ==> a[k] in b;
  }

  /** The getline loop over the ','-separated commands. */
  method ParseFaceTransforms(trstr: string) returns (r: Result<FaceTransforms, string>)
    ensures r == FaceTransformsOf(GetlineTokens(trstr, ','))
  {
    var cmds := GetlineTokens(trstr, ',');
    FaceTransformsMeaning(cmds);
    var ft := FaceTransforms(false, false);
    var k := 0;
    while k < |cmds|
      invariant 0 <= k <= |cmds|
      invariant forall j :: 0 <= j < k ==> CommandError(cmds[j]).None?
      invariant ft == FaceTransforms("c" in cmds[..k], "t" in cmds[..k])
    {
      var command := cmds[k];
      if |command| != 1 {
        assert FirstBadCommand(cmds, k);
        return Failure("Invalid face transformation: " + command);
      }
      PrefixStep(cmds, k);
      if command[0] == 'c' {
        assert command == "c";
        ft := ft.(convexify := true);
      } else if command[0] == 't' {
        assert command == "t";
        ft := ft.(triangulate := true);
      } else {
        assert command != "c" && command != "t";
        assert FirstBadCommand(cmds, k);
        return Failure("Unknown face transformation: " + command);
      }
      k := k + 1;
    }
    assert cmds[..k] == cmds;
    return Success(ft);
  }

  // ---------------------------------------------------------------------
  // parse_ioformats

  datatype IoFormats = IoFormats(iformat: string, oformat: string)

  const NoColon := "':' character cannot be omitted."
  const TooManyFormats := "Too many arguments for format specification."
  const NoInputFormat := "Unable to determine input file format."
  const NoOutputFormat := "Unable to determine output file format."

  /** The format a path's extension names (the extension without its dot). */
  function ExtensionFormat(p: string): (r: Option<string>)
    ensures r.Some? <==> Extension(p) != ""
    ensures r.Some? ==> [ '.' ] + r.value == Extension(p)
  {
    var e := Extension(p);
    if e == "" then None else Some(e[1..])
  }

  /** The format named explicitly, or else the one the extension names. */
  function Fallback(given: string, p: string): Option<string>
  {
    if given != "" then Some(given) else ExtensionFormat(p)
  }

  /**
   * The loop over the ':'-separated format specification: the first token
   * names the input format, the second the output format, a third is
   * refused; an empty specification names neither.
   */
  function GivenFormats(spec: string): Result<IoFormats, string>
  {
    if spec != "" && ':' !in spec then Failure(NoColon)
    else
      var ts := GetlineTokens(spec, ':');
      if |ts| > 2 then Failure(TooManyFormats)
      else Success(IoFormats(if |ts| >= 1 then ts[0] else "", if |ts| == 2 then ts[1] else ""))
  }

  /**
   * The formats parse_ioformats settles on, given those the specification
   * names: each empty one is replaced by its file's extension; a missing
   * output extension is an error only for a non-empty output path.
   */
  function Resolve(g: IoFormats, ifile: string, ofile: string): Result<IoFormats, string>
  {
    if Fallback(g.iformat, ifile).None? then Failure(NoInputFormat)
    else if Fallback(g.oformat, ofile).None? && ofile != "" then Failure(NoOutputFormat)
    else Success(IoFormats(Fallback(g.iformat, ifile).value,
                           if Fallback(g.oformat, ofile).Some? then Fallback(g.oformat, ofile).value else ""))
  }

  function IoFormatsOf(ifile: string, ofile: string, spec: string): Result<IoFormats, string>
  {
    match GivenFormats(spec)
    case Failure(e) => Failure(e)
    case Success(g) => Resolve(g, ifile, ofile)
  }

  /** "a:b" with both halves given selects exactly a and b, whatever the files. */
  lemma IoFormatsExplicit(ifile: string, ofile: string, a: string, b: string)
    requires a != "" && b != "" && ':' !in a && ':' !in b
    ensures IoFormatsOf(ifile, ofile, a + ":" + b) == Success(IoFormats(a, b))
  {
    var spec := a + ":" + b;
    assert spec[|a|] == ':';
    PiecesCons(a, ':', b);
    PiecesOfPlain(b, ':');
    assert Pieces(spec, ':') == [a, b];
  }

  /** Three or more non-empty formats are refused. */
  lemma IoFormatsTooMany(ifile: string, ofile: string, a: string, b: string, c: string)
    requires ':' !in a && ':' !in b && ':' !in c && c != ""
    ensures IoFormatsOf(ifile, ofile, a + ":" + b + ":" + c) == Failure(TooManyFormats)
  {
    var rest := b + [':'] + c;
    var spec := a + [':'] + rest;
    assert spec == a + ":" + b + ":" + c;
    assert spec[|a|] == ':';
    PiecesCons(a, ':', rest);
    PiecesCons(b, ':', c);
    PiecesOfPlain(c, ':');
    assert Pieces(spec, ':') == [a, b, c];
    assert GivenFormats(spec) == Failure(TooManyFormats);
  }

  /**
   * Without a specification both formats come from the extensions: the
   * input must have one, the output may lack one only when its path is empty.
   */
  lemma IoFormatsFromFiles(ifile: string, ofile: string)
    ensures IoFormatsOf(ifile, ofile, "").Success? <==>
      Extension(ifile) != "" && (Extension(ofile) != "" || ofile == "")
    ensures IoFormatsOf(ifile, ofile, "").Success? ==>
      [ '.' ] + IoFormatsOf(ifile, ofile, "").value.iformat == Extension(ifile) &&
      (ofile == "" ==> IoFormatsOf(ifile, ofile, "").value.oformat == "") &&
      (Extension(ofile) != "" ==> [ '.' ] + IoFormatsOf(ifile, ofile, "").value.oformat == Extension(ofile))
  {
    GetlineTokensSplit("", ':');
    assert Extension("") == "";
  }

  /** The getline loop of parse_ioformats, with its token counter i. */
  method ReadFormatSpec(ioformats: string) returns (r: Result<IoFormats, string>)
    ensures r == GivenFormats(ioformats)
  {
    var iformat, oformat := "", "";
    GetlineTokensSplit(ioformats, ':');
    var ts := GetlineTokens(ioformats, ':');
    if ioformats != "" {
      if ':' !in ioformats {
        return Failure(NoColon);
      }
      var i := 0;
      while i < |ts|
        invariant 0 <= i <= |ts| && i <= 2
        invariant iformat == if i >= 1 then ts[0] else ""
        invariant oformat == if i >= 2 then ts[1] else ""
      {
        if i == 0 {
          iformat := ts[0];
        } else if i == 1 {
          oformat := ts[1];
        } else {
          return Failure(TooManyFormats);
        }
        i := i + 1;
      }
    }
    return Success(IoFormats(iformat, oformat));
  }

  /** parse_ioformats: the specification, then the extension fall-back. */
  method ParseIoFormats(ifile: string, ofile: string, ioformats: string)
    returns (r: Result<IoFormats, string>)
    ensures r == IoFormatsOf(ifile, ofile, ioformats)
  {
    var given := ReadFormatSpec(ioformats);
    if given.Failure? {
      return Failure(given.error);
    }
    r := ResolveFormats(given.value, ifile, ofile);
  }

  /** The two `if (format.empty())` fall-backs to the file extensions. */
  method ResolveFormats(g: IoFormats, ifile: string, ofile: string) returns (r: Result<IoFormats, string>)
    ensures r == Resolve(g, ifile, ofile)
  {
    var iformat, oformat := g.iformat, g.oformat;
    if iformat == "" {
      var e := ExtensionFormat(ifile);
      if e.Some? {
        iformat := e.value;
      } else {
        return Failure(NoInputFormat);
      }
    }
    if oformat == "" {
      var e := ExtensionFormat(ofile);
      if e.Some? {
        oformat := e.value;
      } else if ofile != "" {
        return Failure(NoOutputFormat);
      }
    }
    return Success(IoFormats(iformat, oformat));
  }

  // ---------------------------------------------------------------------
  // parse_model_transforms: argument counts and the skew map.
  // std::stof is a parameter: None is the std::invalid_argument it throws.

  datatype Axis = X | Y | Z

  datatype Transform =
    | Rotation(axis: seq<real>, angle: real)
    | Scaling(factor: real)
    | Skew(domain: Axis, range: Axis, angle: real)
    | Translation(offset: seq<real>)

  datatype TransformError = CliError(msg: string) | NumberError(arg: string)

  function TooMany(what: string): TransformError
  {
    CliError("Too many arguments for " + what + ".")
  }

  function NotEnough(what: string): TransformError
  {
    CliError("Not enough arguments for " + what + ".")
  }

  predicate AllNumbers(args: seq<string>, stof: string -> Option<real>)
  {
    forall i :: 0 <= i < |args| ==> stof(args[i]).Some?
  }

  /** stof applied to each argument in turn; the first one it refuses stops it. */
  function Numbers(args: seq<string>, stof: string -> Option<real>): (r: Result<seq<real>, TransformError>)
    ensures r.Success? <==> AllNumbers(args, stof)
    ensures r.Success? ==>
      |r.value| == |args| && forall i :: 0 <= i < |args| ==> r.value[i] == stof(args[i]).value
  {
    if |args| == 0 then Success([])
    else if stof(args[0]).None? then Failure(NumberError(args[0]))
    else
      var rest := Numbers(args[1..], stof);
      if rest.Failure? then Failure(rest.error)
      else Success([stof(args[0]).value] + rest.value)
  }

  /** The first argument stof refuses is the one reported. */
  lemma {:induction false} NumbersFirstBad(args: seq<string>, i: nat, stof: string -> Option<real>)
    requires i < |args| && AllNumbers(args[..i], stof) && stof(args[i]).None?
    ensures Numbers(args, stof) == Failure(NumberError(args[i]))
  {
    if i > 0 {
      assert args[..i][0] == args[0];
      var tail := args[1..][..i - 1];
      assert AllNumbers(tail, stof) by {
        forall j | 0 <= j < |tail| ensures stof(tail[j]).Some? {
          assert tail[j] == args[..i][j + 1];
        }
      }
      NumbersFirstBad(args[1..], i - 1, stof);
    }
  }

  /**
   * The loop `while (getline(pss, arg, ':'))` of an operation taking
   * `arity` numbers: each argument is converted until one too many appears;
   * too few is reported after the loop.
   */
  function Arguments(args: seq<string>, arity: nat, what: string, stof: string -> Option<real>)
    : (r: Result<seq<real>, TransformError>)
    ensures r.Success? ==> |r.value| == arity
  {
    var n := if |args| < arity then |args| else arity;
    match Numbers(args[..n], stof)
    case Failure(e) => Failure(e)
    case Success(vs) =>
      if |args| > arity then Failure(TooMany(what))
      else if |args| < arity then Failure(NotEnough(what))
      else Success(vs)
  }

  /** An operation's arguments are accepted exactly when there are `arity` of them and each is a number. */
  lemma ArgumentsExact(args: seq<string>, arity: nat, what: string, stof: string -> Option<real>)
    ensures Arguments(args, arity, what, stof).Success? <==> |args| == arity && AllNumbers(args, stof)
    ensures Arguments(args, arity, what, stof).Success? ==>
      var vs := Arguments(args, arity, what, stof).value;
      |vs| == arity && forall i :: 0 <= i < arity ==> vs[i] == stof(args[i]).value
    ensures |args| > arity && AllNumbers(args[..arity], stof) ==>
      Arguments(args, arity, what, stof) == Failure(TooMany(what))
    ensures |args| < arity && AllNumbers(args, stof) ==>
      Arguments(args, arity, what, stof) == Failure(NotEnough(what))
  {
    assert args[..|args|] == args;
  }

  /** The method form of one argument loop, with its counter i. */
  method ParseArguments(args: seq<string>, arity: nat, what: string, stof: string -> Option<real>)
    returns (r: Result<seq<real>, TransformError>)
    ensures r == Arguments(args, arity, what, stof)
  {
    var vs: seq<real> := [];
    var i := 0;
    while i < |args|
      invariant 0 <= i <= |args| && i <= arity
      invariant AllNumbers(args[..i], stof)
      invariant vs == Numbers(args[..i], stof).value
    {
      if i >= arity {
        ArgumentsTooMany(args, arity, what, stof);
        return Failure(TooMany(what));
      }
      var v := stof(args[i]);
      if v.None? {
        ArgumentsBadNumber(args, arity, what, stof, i);
        return Failure(NumberError(args[i]));
      }
      NumbersStep(args, i, stof);
      vs := vs + [v.value];
      i := i + 1;
    }
    ArgumentsAllRead(args, arity, what, stof);
    assert args[..i] == args;
    if i < arity {
      return Failure(NotEnough(what));
    }
    return Success(vs);
  }

  lemma ArgumentsTooMany(args: seq<string>, arity: nat, what: string, stof: string -> Option<real>)
    requires arity < |args| && AllNumbers(args[..arity], stof)
    ensures Arguments(args, arity, what, stof) == Failure(TooMany(what))
  {
  }

  lemma ArgumentsBadNumber(args: seq<string>, arity: nat, what: string, stof: string -> Option<real>, i: nat)
    requires i < arity && i < |args| && AllNumbers(args[..i], stof) && stof(args[i]).None?
    ensures Arguments(args, arity, what, stof) == Failure(NumberError(args[i]))
  {
    var n := if |args| < arity then |args| else arity;
    var pre := args[..n];
    assert pre[..i] == args[..i] && pre[i] == args[i];
    NumbersFirstBad(pre, i, stof);
  }

  lemma ArgumentsAllRead(args: seq<string>, arity: nat, what: string, stof: string -> Option<real>)
    requires |args| <= arity && AllNumbers(args, stof)
    ensures Arguments(args, arity, what, stof) ==
      if |args| < arity then Failure(NotEnough(what)) else Success(Numbers(args, stof).value)
  {
    assert args[..|args|] == args;
  }

  lemma NumbersStep(args: seq<string>, i: nat, stof: string -> Option<real>)
    requires i < |args| && AllNumbers(args[..i], stof) && stof(args[i]).Some?
    ensures AllNumbers(args[..i + 1], stof)
    ensures Numbers(args[..i + 1], stof).value == Numbers(args[..i], stof).value + [stof(args[i]).value]
  {
    assert args[..i + 1][..i] == args[..i];
  }

  function AxisOf(c: char): Option<Axis>
  {
    if c == 'x' then Some(X) else if c == 'y' then Some(Y) else if c == 'z' then Some(Z) else None
  }

  /** The verdict on the first skew argument, the two-letter map. */
  function SkewMap(m: string): Result<(Axis, Axis), TransformError>
  {
    if |m| != 2 || m[0] == m[1] then Failure(CliError("Invalid skew map."))
    else if AxisOf(m[0]).None? then Failure(CliError("Invalid skew domain."))
    else if AxisOf(m[1]).None? then Failure(CliError("Invalid skew range."))
    else Success((AxisOf(m[0]).value, AxisOf(m[1]).value))
  }

  /** The skew argument loop: the map, then the angle. */
  function SkewOf(args: seq<string>, stof: string -> Option<real>): Result<Transform, TransformError>
  {
    if |args| == 0 then Failure(NotEnough("skew"))
    else match SkewMap(args[0])
      case Failure(e) => Failure(e)
      case Success(axes) =>
        if |args| == 1 then Failure(NotEnough("skew"))
        else if stof(args[1]).None? then Failure(NumberError(args[1]))
        else if |args| > 2 then Failure(TooMany("skew"))
        else Success(Skew(axes.0, axes.1, stof(args[1]).value))
  }

  /** An accepted skew maps one axis to a different one, both among x, y and z. */
  lemma SkewAccepted(args: seq<string>, stof: string -> Option<real>)
    ensures SkewOf(args, stof).Success? <==>
      |args| == 2 && |args[0]| == 2 && args[0][0] != args[0][1] &&
      args[0][0] in "xyz" && args[0][1] in "xyz" && stof(args[1]).Some?
    ensures SkewOf(args, stof).Success? ==>
      SkewOf(args, stof).value.domain != SkewOf(args, stof).value.range
  {
    if |args| > 0 && |args[0]| == 2 {
      var m := args[0];
      assert m[0] in "xyz" <==> AxisOf(m[0]).Some?;
      assert m[1] in "xyz" <==> AxisOf(m[1]).Some?;
    }
  }

  /** The skew loop with its counter i. */
  method ParseSkew(args: seq<string>, stof: string -> Option<real>) returns (r: Result<Transform, TransformError>)
    ensures r == SkewOf(args, stof)
  {
    var domain, range := X, X;
    var angle: real := 0.0;
    var i := 0;
    while i < |args|
      invariant 0 <= i <= |args| && i <= 2
      invariant i >= 1 ==> SkewMap(args[0]) == Success((domain, range))
      invariant i >= 2 ==> stof(args[1]) == Some(angle)
    {
      if i >= 2 {
        return Failure(TooMany("skew"));
      }
      if i == 0 {
        var m := SkewMap(args[0]);
        if m.Failure? {
          return Failure(m.error);
        }
        domain, range := m.value.0, m.value.1;
      } else {
        var v := stof(args[i]);
        if v.None? {
          return Failure(NumberError(args[i]));
        }
        angle := v.value;
      }
      i := i + 1;
    }
    if i < 2 {
      return Failure(NotEnough("skew"));
    }
    return Success(Skew(domain, range, angle));
  }

  /** The operation an opcode and its arguments denote. */
  function OperationOf(op: string, args: seq<string>, stof: string -> Option<real>): Result<Transform, TransformError>
  {
    if op == "ro" then
      match Arguments(args, 4, "rotation", stof)
      case Failure(e) => Failure(e)
      case Success(vs) => Success(Rotation(vs[..3], vs[3]))
    else if op == "sc" then
      match Arguments(args, 1, "scaling", stof)
      case Failure(e) => Failure(e)
      case Success(vs) => Success(Scaling(vs[0]))
    else if op == "sk" then SkewOf(args, stof)
    else if op == "tr" then
      match Arguments(args, 3, "translation", stof)
      case Failure(e) => Failure(e)
      case Success(vs) => Success(Translation(vs))
    else Failure(CliError("Unknown transformation: " + op))
  }

  /**
   * One ','-separated part: its first ':'-token is the opcode, the others
   * are its arguments; an empty part has no opcode at all.
   */
  function TransformOf(part: string, stof: string -> Option<real>): Result<Transform, TransformError>
  {
    var toks := GetlineTokens(part, ':');
    if |toks| == 0 then Failure(CliError("Missing transformation." + part))
    else OperationOf(toks[0], toks[1..], stof)
  }

  /** Only an empty part lacks an opcode, and it is reported as missing. */
  lemma MissingTransformation(part: string, stof: string -> Option<real>)
    ensures GetlineTokens(part, ':') == [] <==> part == ""
    ensures part == "" ==> TransformOf(part, stof) == Failure(CliError("Missing transformation."))
  {
    GetlineTokensSplit(part, ':');
    assert "Missing transformation." + "" == "Missing transformation.";
    if part != "" {
      var ps := Pieces(part, ':');
      if |ps| == 1 {
        PiecesJoin(part, ':');
      }
    }
  }

  /**
   * An operation is accepted exactly when its opcode is ro, sc, sk or tr
   * with 4, 1, 2 or 3 arguments that all parse (the skew map checked as
   * above), and it then carries the parsed numbers in order.
   */
  lemma OperationAccepted(op: string, args: seq<string>, stof: string -> Option<real>)
    ensures OperationOf(op, args, stof).Success? ==> op == "ro" || op == "sc" || op == "sk" || op == "tr"
    ensures op == "ro" ==>
      (OperationOf(op, args, stof).Success? <==> |args| == 4 && AllNumbers(args, stof))
    ensures op == "ro" && OperationOf(op, args, stof).Success? ==>
      OperationOf(op, args, stof).value ==
        Rotation([stof(args[0]).value, stof(args[1]).value, stof(args[2]).value], stof(args[3]).value)
    ensures op == "sc" ==>
      (OperationOf(op, args, stof).Success? <==> |args| == 1 && AllNumbers(args, stof))
    ensures op == "sc" && OperationOf(op, args, stof).Success? ==>
      OperationOf(op, args, stof).value == Scaling(stof(args[0]).value)
    ensures op == "tr" ==>
      (OperationOf(op, args, stof).Success? <==> |args| == 3 && AllNumbers(args, stof))
    ensures op == "tr" && OperationOf(op, args, stof).Success? ==>
      OperationOf(op, args, stof).value ==
        Translation([stof(args[0]).value, stof(args[1]).value, stof(args[2]).value])
    ensures op == "sk" ==> OperationOf(op, args, stof) == SkewOf(args, stof)
  {
    if op == "ro" {
      ArgumentsExact(args, 4, "rotation", stof);
    } else if op == "sc" {
      ArgumentsExact(args, 1, "scaling", stof);
    } else if op == "tr" {
      ArgumentsExact(args, 3, "translation", stof);
    }
  }

  /** "sc:" followed by one number is a single scaling by it. */
  lemma ScalingPart(s: string, stof: string -> Option<real>)
    requires s != "" && ':' !in s && stof(s).Some?
    ensures TransformOf("sc:" + s, stof) == Success(Scaling(stof(s).value))
  {
    PiecesCons("sc", ':', s);
    PiecesOfPlain(s, ':');
    assert "sc:" + s == "sc" + [':'] + s;
    assert GetlineTokens("sc:" + s, ':') == ["sc", s];
    ArgumentsExact([s], 1, "scaling", stof);
  }

  /** The verdicts on the parts, one per part. */
  function PartResults(parts: seq<string>, stof: string -> Option<real>): (rs: seq<Result<Transform, TransformError>>)
    ensures |rs| == |parts| && forall k :: 0 <= k < |parts| ==> rs[k] == TransformOf(parts[k], stof)
  {
    Map(parts, PartParser(stof))
  }

  function PartParser(stof: string -> Option<real>): string -> Result<Transform, TransformError>
  {
    part => TransformOf(part, stof)
  }

  function Map<A, B>(xs: seq<A>, f: A -> B): (ys: seq<B>)
    ensures |ys| == |xs| && forall k :: 0 <= k < |xs| ==> ys[k] == f(xs[k])
  {
    seq(|xs|, k requires 0 <= k < |xs| => f(xs[k]))
  }

  lemma MapAppend<A, B>(xs: seq<A>, ys: seq<A>, f: A -> B)
    ensures Map(xs + ys, f) == Map(xs, f) + Map(ys, f)
  {
    assert forall k :: 0 <= k < |xs| ==> (xs + ys)[k] == xs[k];
  }

  /** The operations in order, or the error of the first part that has one. */
  function Collect(rs: seq<Result<Transform, TransformError>>): (r: Result<seq<Transform>, TransformError>)
    ensures r.Success? ==> |r.value| == |rs|
  {
    if |rs| == 0 then Success([])
    else match rs[0]
      case Failure(e) => Failure(e)
      case Success(t) =>
        match Collect(rs[1..])
        case Failure(e) => Failure(e)
        case Success(ts) => Success([t] + ts)
  }

  /** Collect succeeds with every verdict's operation, or fails with the first error. */
  lemma {:induction false} CollectMeaning(rs: seq<Result<Transform, TransformError>>)
    ensures Collect(rs).Success? <==> forall k :: 0 <= k < |rs| ==> rs[k].Success?
    ensures Collect(rs).Success? ==> forall k :: 0 <= k < |rs| ==> rs[k] == Success(Collect(rs).value[k])
    ensures Collect(rs).Failure? ==>
      exists k :: (0 <= k < |rs| && rs[k] == Failure(Collect(rs).error) && forall j :: 0 <= j < k ==> rs[j].Success?)
  {
    if |rs| > 0 {
      CollectMeaning(rs[1..]);
      if rs[0].Success? && Collect(rs[1..]).Failure? {
        var k :| 0 <= k < |rs[1..]| && rs[1..][k] == Failure(Collect(rs[1..]).error) &&
          forall j :: 0 <= j < k ==> rs[1..][j].Success?;
        assert rs[k + 1] == rs[1..][k];
        assert forall j :: 1 <= j < k + 1 ==> rs[j] == rs[1..][j - 1];
      }
      if Collect(rs).Success? {
        assert forall k :: 1 <= k < |rs| ==> rs[k] == rs[1..][k - 1];
      }
      if rs[0].Failure? {
        assert !(forall k :: 0 <= k < |rs| ==> rs[k].Success?);
      }
    }
  }

  /** The part loop of parse_model_transforms over the ','-separated parts. */
  function TransformsOf(parts: seq<string>, stof: string -> Option<real>): Result<seq<Transform>, TransformError>
  {
    Collect(PartResults(parts, stof))
  }

  /**
   * A transform string is accepted exactly when each part is, and then
   * yields one operation per part, in order; otherwise the first part that
   * fails names the error.
   */
  lemma TransformsMeaning(parts: seq<string>, stof: string -> Option<real>)
    ensures TransformsOf(parts, stof).Success? <==>
      forall k :: 0 <= k < |parts| ==> TransformOf(parts[k], stof).Success?
    ensures TransformsOf(parts, stof).Success? ==> |TransformsOf(parts, stof).value| == |parts|
    ensures TransformsOf(parts, stof).Success? ==>
      forall k :: 0 <= k < |parts| ==> TransformOf(parts[k], stof) == Success(TransformsOf(parts, stof).value[k])
    ensures TransformsOf(parts, stof).Failure? ==>
      exists k :: (0 <= k < |parts| && TransformOf(parts[k], stof) == Failure(TransformsOf(parts, stof).error) &&
                   forall j :: 0 <= j < k ==> TransformOf(parts[j], stof).Success?)
  {
    CollectMeaning(PartResults(parts, stof));
  }

  /** Transform strings joined by ',' accumulate their operations in order. */
  lemma TransformsAppend(a: seq<string>, b: seq<string>, stof: string -> Option<real>)
    requires TransformsOf(a, stof).Success? && TransformsOf(b, stof).Success?
    ensures TransformsOf(a + b, stof) == Success(TransformsOf(a, stof).value + TransformsOf(b, stof).value)
  {
    MapAppend(a, b, PartParser(stof));
    CollectAppend(PartResults(a, stof), PartResults(b, stof));
  }

  lemma {:induction false} CollectAppend(x: seq<Result<Transform, TransformError>>, y: seq<Result<Transform, TransformError>>)
    requires Collect(x).Success? && Collect(y).Success?
    ensures Collect(x + y) == Success(Collect(x).value + Collect(y).value)
  {
    if |x| > 0 {
      assert (x + y)[1..] == x[1..] + y;
      assert (x + y)[0] == x[0];
      CollectAppend(x[1..], y);
      var t := x[0].value;
      var x', y' := Collect(x[1..]).value, Collect(y).value;
      assert Collect(x).value == [t] + x';
      assert [t] + (x' + y') == ([t] + x') + y';
    } else {
      assert x + y == y;
      assert [] + Collect(y).value == Collect(y).value;
    }
  }

  lemma {:induction false} CollectFirstFailure(rs: seq<Result<Transform, TransformError>>, k: nat)
    requires k < |rs| && Collect(rs[..k]).Success? && rs[k].Failure?
    ensures Collect(rs) == Failure(rs[k].error)
    decreases k
  {
    if k > 0 {
      assert rs[..k][0] == rs[0];
      assert rs[1..][..k - 1] == rs[..k][1..];
      CollectFirstFailure(rs[1..], k - 1);
    }
  }

  /** The operation one part denotes: its opcode, then its arguments. */
  method ParsePart(part: string, stof: string -> Option<real>) returns (r: Result<Transform, TransformError>)
    ensures r == TransformOf(part, stof)
  {
    var toks := GetlineTokens(part, ':');
    if |toks| == 0 {
      return Failure(CliError("Missing transformation." + part));
    }
    r := ParseOperation(toks[0], toks[1..], stof);
  }

  /** The dispatch on the opcode and the argument loop of the operation it names. */
  method ParseOperation(opcode: string, args: seq<string>, stof: string -> Option<real>)
    returns (r: Result<Transform, TransformError>)
    ensures r == OperationOf(opcode, args, stof)
  {
    if opcode == "ro" {
      var vs := ParseArguments(args, 4, "rotation", stof);
      if vs.Failure? {
        return Failure(vs.error);
      }
      return Success(Rotation(vs.value[..3], vs.value[3]));
    } else if opcode == "sc" {
      var vs := ParseArguments(args, 1, "scaling", stof);
      if vs.Failure? {
        return Failure(vs.error);
      }
      return Success(Scaling(vs.value[0]));
    } else if opcode == "sk" {
      r := ParseSkew(args, stof);
    } else if opcode == "tr" {
      var vs := ParseArguments(args, 3, "translation", stof);
      if vs.Failure? {
        return Failure(vs.error);
      }
      return Success(Translation(vs.value));
    } else {
      return Failure(CliError("Unknown transformation: " + opcode));
    }
  }

  lemma PrefixStep<T>(s: seq<T>, k: nat)
    requires k < |s|
    ensures s[..k + 1] == s[..k] + [s[k]]
  {
  }

  /** parse_model_transforms' loop over the ','-separated parts. */
  method ParseModelTransforms(trstr: string, stof: string -> Option<real>)
    returns (r: Result<seq<Transform>, TransformError>)
    ensures r == TransformsOf(GetlineTokens(trstr, ','), stof)
  {
    var parts := GetlineTokens(trstr, ',');
    ghost var rs := PartResults(parts, stof);
    var ops: seq<Transform> := [];
    var k := 0;
    while k < |parts|
      invariant 0 <= k <= |parts|
      invariant Collect(rs[..k]) == Success(ops)
    {
      var t := ParsePart(parts[k], stof);
      assert rs[k] == t;
      PrefixStep(rs, k);
      if t.Failure? {
        CollectFirstFailure(rs, k);
        return Failure(t.error);
      }
      assert [t][1..] == [];
      assert [t.value] + [] == [t.value];
      CollectAppend(rs[..k], [t]);
      ops := ops + [t.value];
      k := k + 1;
    }
    assert rs[..k] == rs;
    return Success(ops);
  }

  // ---------------------------------------------------------------------
  // print_properties: which properties a flag string selects

  datatype Property = Connectivity | Convexity | SurfaceArea | Triangularity | Volume | WaterTightness

  function Letter(p: Property): char
  {
    match p
    case Connectivity => 'c'
    case Convexity => 'x'
    case SurfaceArea => 's'
    case Triangularity => 't'
    case Volume => 'v'
    case WaterTightness => 'w'
  }

  /** The order in which print_properties reports. */
  const Printing: seq<Property> := [Connectivity, Convexity, SurfaceArea, Triangularity, Volume, WaterTightness]

  /** The switch in print_properties: 'a' or a property's letter. */
  predicate KnownFlag(c: char)
  {
    c in "acxstvw"
  }

  /** The flags set by the loop over the characters: "all", and the properties named. */
  datatype PropFlags = PropFlags(all: bool, chosen: set<Property>)

  function FlagsOf(s: string): Result<PropFlags, string>
  {
    if |s| == 0 then Success(PropFlags(false, {}))
    else if !KnownFlag(s[0]) then Failure("Unknown property flag: " + [s[0]])
    else match FlagsOf(s[1..])
      case Failure(e) => Failure(e)
      case Success(fl) =>
        if s[0] == 'a' then Success(fl.(all := true))
        else Success(fl.(chosen := fl.chosen + {PropertyOf(s[0])}))
  }

  function PropertyOf(c: char): Property
    requires KnownFlag(c) && c != 'a'
  {
    if c == 'c' then Connectivity
    else if c == 'x' then Convexity
    else if c == 's' then SurfaceArea
    else if c == 't' then Triangularity
    else if c == 'v' then Volume
    else WaterTightness
  }

  /**
   * The flag string is accepted exactly when every character is one of
   * a, c, x, s, t, v, w; "all" is whether 'a' occurs and a property is
   * chosen exactly when its letter occurs; otherwise the first unknown
   * character is reported, before anything is printed.
   */
  lemma {:induction false} FlagsMeaning(s: string)
    ensures FlagsOf(s).Success? <==> forall i :: 0 <= i < |s| ==> s[i] in "acxstvw"
    ensures FlagsOf(s).Success? ==> FlagsOf(s).value.all == ('a' in s)
    ensures FlagsOf(s).Success? ==> forall p :: p in FlagsOf(s).value.chosen <==> Letter(p) in s
    ensures FlagsOf(s).Failure? ==>
      exists i :: (0 <= i < |s| && !(s[i] in "acxstvw") &&
                   (forall j :: 0 <= j < i ==> s[j] in "acxstvw") &&
                   FlagsOf(s).error == "Unknown property flag: " + [s[i]])
  {
    if |s| > 0 {
      FlagsMeaning(s[1..]);
      assert s == [s[0]] + s[1..];
      if KnownFlag(s[0]) && FlagsOf(s[1..]).Failure? {
        var i :| 0 <= i < |s[1..]| && !(s[1..][i] in "acxstvw") &&
          (forall j :: 0 <= j < i ==> s[1..][j] in "acxstvw") &&
          FlagsOf(s[1..]).error == "Unknown property flag: " + [s[1..][i]];
        assert s[i + 1] == s[1..][i];
        assert forall j :: 1 <= j < i + 1 ==> s[j] == s[1..][j - 1];
      }
      if KnownFlag(s[0]) && s[0] != 'a' {
        assert Letter(PropertyOf(s[0])) == s[0];
        assert forall p :: Letter(p) == s[0] ==> p == PropertyOf(s[0]);
      }
    }
  }

  /** A property's position in print_properties' report order. */
  function Rank(p: Property): nat
  {
    match p
    case Connectivity => 0
    case Convexity => 1
    case SurfaceArea => 2
    case Triangularity => 3
    case Volume => 4
    case WaterTightness => 5
  }

  predicate Increasing(ps: seq<Property>)
  {
    forall i, j :: 0 <= i < j < |ps| ==> Rank(ps[i]) < Rank(ps[j])
  }

  /** The properties of ps the flags select, in the order of ps. */
  function Reported(ps: seq<Property>, fl: PropFlags): (r: seq<Property>)
    ensures forall p :: p in r <==> p in ps && (fl.all || p in fl.chosen)
    ensures Increasing(ps) ==> Increasing(r)
  {
    if |ps| == 0 then []
    else
      var rest := Reported(ps[1..], fl);
      if fl.all || ps[0] in fl.chosen then
        var r := [ps[0]] + rest;
        assert Increasing(ps) ==> Increasing(r) by {
          if Increasing(ps) {
            assert Increasing(ps[1..]);
            forall j | 0 < j < |r| ensures Rank(r[0]) < Rank(r[j]) {
              assert r[j] in ps[1..];
              var b :| 0 <= b < |ps[1..]| && ps[1..][b] == r[j];
              assert ps[b + 1] == r[j];
            }
          }
        }
        r
      else
        assert Increasing(ps) ==> Increasing(ps[1..]);
        rest
  }

  /** print_properties' choice: the properties it reports for a flag string, in order. */
  function PropertyReport(s: string): Result<seq<Property>, string>
  {
    match FlagsOf(s)
    case Failure(e) => Failure(e)
    case Success(fl) => Success(Reported(Printing, fl))
  }

  /** A property is reported exactly when 'a' or its own letter is among the flags. */
  lemma ReportMeaning(s: string, p: Property)
    requires PropertyReport(s).Success?
    ensures p in PropertyReport(s).value <==> 'a' in s || Letter(p) in s
  {
    FlagsMeaning(s);
    assert p in Printing;
  }

  // ---------------------------------------------------------------------
  // CLIContext: order-sensitive options packed into actions

  /** The entries of the parse order; Other is any option that is not packed. */
  datatype OptionKind = Props | FaceTrans | ModelTrans | Other

  datatype ActionType = PrintProperties | FaceTransform | ModelTransform

  datatype Action = Action(kind: ActionType, value: string)

  function Count(order: seq<OptionKind>, o: OptionKind): nat
  {
    if |order| == 0 then 0
    else Count(order[..|order| - 1], o) + (if order[|order| - 1] == o then 1 else 0)
  }

  function ActionOf(o: OptionKind): ActionType
    requires o != Other
  {
    match o
    case Props => PrintProperties
    case FaceTrans => FaceTransform
    case ModelTrans => ModelTransform
  }

  /** The values given to one option, in command-line order. */
  function ValuesOf(o: OptionKind, props: seq<string>, ftrans: seq<string>, mtrans: seq<string>): seq<string>
  {
    match o
    case Props => props
    case FaceTrans => ftrans
    case ModelTrans => mtrans
    case Other => []
  }

  /** Every occurrence of an option in the parse order has a value of its own. */
  predicate Enough(order: seq<OptionKind>, props: seq<string>, ftrans: seq<string>, mtrans: seq<string>)
  {
    Count(order, Props) <= |props| && Count(order, FaceTrans) <= |ftrans| && Count(order, ModelTrans) <= |mtrans|
  }

  /** The packed entries of the order, Other dropped. */
  function Packed(order: seq<OptionKind>): (r: seq<OptionKind>)
    ensures forall i :: 0 <= i < |r| ==> r[i] != Other
    ensures |r| <= |order|
  {
    if |order| == 0 then []
    else Packed(order[..|order| - 1]) + (if order[|order| - 1] == Other then [] else [order[|order| - 1]])
  }

  /** Counting over the parse order with one more entry. */
  lemma CountStep(order: seq<OptionKind>, i: nat)
    requires i < |order|
    ensures order[..i + 1][..i] == order[..i]
    ensures forall o :: Count(order[..i + 1], o) == Count(order[..i], o) + (if order[i] == o then 1 else 0)
    ensures Packed(order[..i + 1]) == Packed(order[..i]) + (if order[i] == Other then [] else [order[i]])
  {
    assert order[..i + 1][..i] == order[..i];
  }

  lemma {:induction false} CountPrefix(order: seq<OptionKind>, i: nat, o: OptionKind)
    requires i <= |order|
    ensures Count(order[..i], o) <= Count(order, o)
    decreases |order| - i
  {
    if i < |order| {
      CountStep(order, i);
      CountPrefix(order, i + 1, o);
    } else {
      assert order[..i] == order;
    }
  }

  /**
   * The actions the packing loop appends, one per packed entry of the
   * order: an entry with n earlier occurrences of its option takes that
   * option's value number n.
   */
  function PackedActions(order: seq<OptionKind>, props: seq<string>, ftrans: seq<string>, mtrans: seq<string>)
    : (r: seq<Action>)
    requires Enough(order, props, ftrans, mtrans)
    ensures |r| == |Packed(order)|
  {
    if |order| == 0 then []
    else
      var n := |order| - 1;
      CountStep(order, n);
      var pre := PackedActions(order[..n], props, ftrans, mtrans);
      if order[n] == Other then pre
      else pre + [Action(ActionOf(order[n]), ValuesOf(order[n], props, ftrans, mtrans)[Count(order[..n], order[n])])]
  }

  /** The k-th occurrence of each option gets the k-th value given to that option. */
  lemma {:induction false} PackedActionsOccurrence(order: seq<OptionKind>, props: seq<string>,
                                                  ftrans: seq<string>, mtrans: seq<string>, i: nat)
    requires Enough(order, props, ftrans, mtrans) && i < |order| && order[i] != Other
    ensures Count(order[..i], order[i]) < |ValuesOf(order[i], props, ftrans, mtrans)|
    ensures |Packed(order[..i])| < |PackedActions(order, props, ftrans, mtrans)|
    ensures PackedActions(order, props, ftrans, mtrans)[|Packed(order[..i])|] ==
      Action(ActionOf(order[i]), ValuesOf(order[i], props, ftrans, mtrans)[Count(order[..i], order[i])])
  {
    var n := |order| - 1;
    CountStep(order, n);
    CountPrefix(order, i + 1, order[i]);
    CountStep(order, i);
    if i < n {
      assert order[..n][i] == order[i] && order[..n][..i] == order[..i];
      PackedActionsOccurrence(order[..n], props, ftrans, mtrans, i);
      CountPrefix(order[..n], i + 1, order[i]);
    } else {
      assert order[..n] == order[..i];
    }
  }

  /** One more entry of the parse order appends at most one action. */
  lemma PackedActionsStep(order: seq<OptionKind>, props: seq<string>, ftrans: seq<string>, mtrans: seq<string>,
                          i: nat)
    requires i < |order| && Enough(order, props, ftrans, mtrans)
    ensures Enough(order[..i], props, ftrans, mtrans) && Enough(order[..i + 1], props, ftrans, mtrans)
    ensures forall o :: Count(order[..i + 1], o) == Count(order[..i], o) + (if order[i] == o then 1 else 0)
    ensures order[i] != Other ==> Count(order[..i], order[i]) < |ValuesOf(order[i], props, ftrans, mtrans)|
    ensures PackedActions(order[..i + 1], props, ftrans, mtrans) ==
      PackedActions(order[..i], props, ftrans, mtrans) +
      if order[i] == Other then []
      else [Action(ActionOf(order[i]), ValuesOf(order[i], props, ftrans, mtrans)[Count(order[..i], order[i])])]
  {
    CountStep(order, i);
    CountPrefix(order, i + 1, Props);
    CountPrefix(order, i + 1, FaceTrans);
    CountPrefix(order, i + 1, ModelTrans);
    CountPrefix(order, i, Props);
    CountPrefix(order, i, FaceTrans);
    CountPrefix(order, i, ModelTrans);
  }

  function Reverse(s: seq<string>): (r: seq<string>)
    ensures |r| == |s|
  {
    if |s| == 0 then [] else Reverse(s[1..]) + [s[0]]
  }

  /** Popping the back of a reversed suffix hands out its first element. */
  lemma ReverseSuffix(s: seq<string>, c: nat)
    requires c < |s|
    ensures Reverse(s[c..]) == Reverse(s[c + 1..]) + [s[c]]
  {
    assert s[c..][1..] == s[c + 1..];
  }

  /**
   * CLIContext's loop over the parse order: each option's values were
   * reversed, so popping the back hands them out from the front.
   */
  method PackActions(order: seq<OptionKind>, props: seq<string>, ftrans: seq<string>, mtrans: seq<string>)
    returns (actions: seq<Action>)
    requires Enough(order, props, ftrans, mtrans)
    ensures actions == PackedActions(order, props, ftrans, mtrans)
  {
    var ps, fs, ms := Reverse(props), Reverse(ftrans), Reverse(mtrans);
    actions := [];
    var i := 0;
    while i < |order|
      invariant 0 <= i <= |order|
      invariant Enough(order[..i], props, ftrans, mtrans)
      invariant ps == Reverse(props[Count(order[..i], Props)..])
      invariant fs == Reverse(ftrans[Count(order[..i], FaceTrans)..])
      invariant ms == Reverse(mtrans[Count(order[..i], ModelTrans)..])
      invariant actions == PackedActions(order[..i], props, ftrans, mtrans)
    {
      PackedActionsStep(order, props, ftrans, mtrans, i);
      ghost var next := PackedActions(order[..i + 1], props, ftrans, mtrans);
      var o := order[i];
      if o == Props {
        ReverseSuffix(props, Count(order[..i], Props));
        actions := actions + [Action(PrintProperties, ps[|ps| - 1])];
        ps := ps[..|ps| - 1];
      } else if o == FaceTrans {
        ReverseSuffix(ftrans, Count(order[..i], FaceTrans));
        actions := actions + [Action(FaceTransform, fs[|fs| - 1])];
        fs := fs[..|fs| - 1];
      } else if o == ModelTrans {
        ReverseSuffix(mtrans, Count(order[..i], ModelTrans));
        actions := actions + [Action(ModelTransform, ms[|ms| - 1])];
        ms := ms[..|ms| - 1];
      }
      assert actions == next;
      i := i + 1;
    }
    assert order[..i] == order;
  }
}
