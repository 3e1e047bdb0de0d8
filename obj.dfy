// The Wavefront OBJ reader: comments, statement dispatch, the v / vt / vn
// coordinate statements and the f statement's index groups, building a
// Model line by line. Lines come in as a sequence of strings; number
// parsing is a parameter (see Numbers).
module Obj {
  import opened Wrappers
  import opened Text
  import opened Faces
  import opened Mesh

  /**
   * The two number readers the parser relies on. `extract` is
   * `stream >> float` on one whitespace-separated word (None: the
   * extraction fails). `stof` is std::stof: the value read and how many
   * characters it used, or None where it throws std::invalid_argument.
   */
  datatype Numbers = Numbers(extract: string -> Option<real>, stof: string -> Option<(real, nat)>)

  /**
   * What a statement throws: a message of its own, or std::stof's own
   * std::invalid_argument (whose text the library defines) on a word.
   */
  datatype LineError = Message(text: string) | NotANumber(word: string)

  /** ParseError(e.what(), filename_, lcnt). */
  datatype ParseError = ParseError(cause: LineError, filename: string, line: nat)

  // ---------------------------------------------------------------------
  // Coordinates: `while (lss >> coord)`

  /** The numbers read before the first word that is not one. */
  function NumberPrefix(ws: seq<string>, nums: Numbers): (cs: seq<real>)
    ensures |cs| <= |ws|
    ensures forall i :: 0 <= i < |cs| ==> nums.extract(ws[i]) == Some(cs[i])
    ensures |cs| < |ws| ==> nums.extract(ws[|cs|]).None?
  {
    if |ws| == 0 || nums.extract(ws[0]).None? then []
    else [nums.extract(ws[0]).value] + NumberPrefix(ws[1..], nums)
  }

  /** The coordinate loop of vertex() and vertex_normal(). */
  method ReadCoordinates(ws: seq<string>, nums: Numbers) returns (cs: seq<real>)
    ensures cs == NumberPrefix(ws, nums)
  {
    cs := [];
    var k := 0;
    while k < |ws| && nums.extract(ws[k]).Some?
      invariant 0 <= k <= |ws|
      invariant cs == NumberPrefix(ws[..k], nums)
      invariant forall i :: 0 <= i < k ==> nums.extract(ws[i]).Some?
    {
      NumberPrefixStep(ws, k, nums);
      cs := cs + [nums.extract(ws[k]).value];
      k := k + 1;
    }
    NumberPrefixStop(ws, k, nums);
  }

  lemma {:induction false} NumberPrefixStep(ws: seq<string>, k: nat, nums: Numbers)
    requires k < |ws| && forall i :: 0 <= i <= k ==> nums.extract(ws[i]).Some?
    ensures NumberPrefix(ws[..k + 1], nums) == NumberPrefix(ws[..k], nums) + [nums.extract(ws[k]).value]
  {
    if k > 0 {
      assert ws[..k + 1][1..] == ws[1..][..k];
      assert ws[..k][1..] == ws[1..][..k - 1];
      NumberPrefixStep(ws[1..], k - 1, nums);
    }
  }

  lemma {:induction false} NumberPrefixStop(ws: seq<string>, k: nat, nums: Numbers)
    requires k <= |ws| && forall i :: 0 <= i < k ==> nums.extract(ws[i]).Some?
    requires k == |ws| || nums.extract(ws[k]).None?
    ensures NumberPrefix(ws[..k], nums) == NumberPrefix(ws, nums)
  {
    if k == 0 {
    } else {
      assert ws[..k][1..] == ws[1..][..k - 1];
      NumberPrefixStop(ws[1..], k - 1, nums);
    }
  }

  const VertexTooMany := "Too many arguments for vertex."
  const VertexNotEnough := "Not enough arguments for vertex."

  /**
   * vertex() as written: more than four numbers are too many, exactly
   * three get the weight 1, and everything else, four included, is
   * "not enough".
   */
  function VertexOf(ws: seq<string>, nums: Numbers): (r: Result<FVec4, LineError>)
    ensures r.Success? <==> |NumberPrefix(ws, nums)| == 3
    ensures r.Success? ==>
      r.value == FVec4(nums.extract(ws[0]).value, nums.extract(ws[1]).value, nums.extract(ws[2]).value, 1.0)
  {
    var cs := NumberPrefix(ws, nums);
    if |cs| > 4 then Failure(Message(VertexTooMany))
    else if |cs| == 3 then Success(FVec4(cs[0], cs[1], cs[2], 1.0))
    else Failure(Message(VertexNotEnough))
  }

  /** A "v" statement with four numbers, the weighted form, is refused as having too few. */
  lemma WeightedVertexRefused(ws: seq<string>, nums: Numbers)
    requires |ws| == 4 && forall i :: 0 <= i < 4 ==> nums.extract(ws[i]).Some?
    ensures VertexOf(ws, nums) == Failure(Message(VertexNotEnough))
  {
    assert |NumberPrefix(ws, nums)| == 4;
  }

  /**
   * The evidently intended vertex(): three numbers get the weight 1, four
   * give it explicitly, and only fewer than three are "not enough".
   */
  function IntendedVertexOf(ws: seq<string>, nums: Numbers): (r: Result<FVec4, LineError>)
    ensures r.Success? <==> 3 <= |NumberPrefix(ws, nums)| <= 4
    ensures |NumberPrefix(ws, nums)| == 4 ==>
      r == Success(FVec4(nums.extract(ws[0]).value, nums.extract(ws[1]).value,
                         nums.extract(ws[2]).value, nums.extract(ws[3]).value))
    ensures |NumberPrefix(ws, nums)| != 4 ==> r == VertexOf(ws, nums)
  {
    var cs := NumberPrefix(ws, nums);
    if |cs| > 4 then Failure(Message(VertexTooMany))
    else if |cs| < 3 then Failure(Message(VertexNotEnough))
    else if |cs| == 3 then Success(FVec4(cs[0], cs[1], cs[2], 1.0))
    else Success(FVec4(cs[0], cs[1], cs[2], cs[3]))
  }

  const TextureNotEnough := "Not enough arguments for texture vertex."

  /**
   * texture_vertex(): the loop stops after three numbers, so more are
   * ignored and "Too many arguments for texture vertex." is never raised;
   * missing coordinates stay 0, and no number at all is "not enough".
   */
  function TextureVertexOf(ws: seq<string>, nums: Numbers): (r: Result<FVec3, LineError>)
    ensures r.Success? <==> |ws| > 0 && nums.extract(ws[0]).Some?
    ensures r != Failure(Message("Too many arguments for texture vertex."))
    ensures r.Success? ==> r.value.x == nums.extract(ws[0]).value
    ensures |NumberPrefix(ws, nums)| >= 3 ==>
      r == Success(FVec3(nums.extract(ws[0]).value, nums.extract(ws[1]).value, nums.extract(ws[2]).value))
  {
    var cs := NumberPrefix(ws, nums);
    if |cs| == 0 then Failure(Message(TextureNotEnough))
    else Success(FVec3(cs[0], if |cs| >= 2 then cs[1] else 0.0, if |cs| >= 3 then cs[2] else 0.0))
  }

  /** A "vt" statement with four numbers is accepted, the fourth dropped. */
  lemma FourthTextureCoordinateDropped(ws: seq<string>, nums: Numbers)
    requires |ws| == 4 && forall i :: 0 <= i < 4 ==> nums.extract(ws[i]).Some?
    ensures TextureVertexOf(ws, nums) ==
      Success(FVec3(nums.extract(ws[0]).value, nums.extract(ws[1]).value, nums.extract(ws[2]).value))
  {
    assert |NumberPrefix(ws, nums)| == 4;
  }

  /**
   * The evidently intended texture_vertex(): as written, except that more
   * than three numbers raise "Too many arguments for texture vertex.".
   */
  function IntendedTextureVertexOf(ws: seq<string>, nums: Numbers): (r: Result<FVec3, LineError>)
    ensures r.Success? <==> 1 <= |NumberPrefix(ws, nums)| <= 3
    ensures |NumberPrefix(ws, nums)| > 3 <==> r == Failure(Message("Too many arguments for texture vertex."))
    ensures |NumberPrefix(ws, nums)| <= 3 ==> r == TextureVertexOf(ws, nums)
  {
    var cs := NumberPrefix(ws, nums);
    if |cs| > 3 then Failure(Message("Too many arguments for texture vertex."))
    else TextureVertexOf(ws, nums)
  }

  /** The counter loop `while (lss >> coord && n < 3)`. */
  method ReadTextureVertex(ws: seq<string>, nums: Numbers) returns (r: Result<FVec3, LineError>)
    ensures r == TextureVertexOf(ws, nums)
  {
    var coords := [0.0, 0.0, 0.0];
    var n := 0;
    var k := 0;
    ghost var cs := NumberPrefix(ws, nums);
    while k < |ws| && nums.extract(ws[k]).Some? && n < 3
      invariant 0 <= k <= |ws| && n == k && k <= 3 && k <= |cs|
      invariant |coords| == 3
      invariant forall i :: 0 <= i < k ==> coords[i] == cs[i]
      invariant forall i :: k <= i < 3 ==> coords[i] == 0.0
    {
      coords := coords[n := nums.extract(ws[k]).value];
      n := n + 1;
      k := k + 1;
    }
    if n == 0 {
      return Failure(Message(TextureNotEnough));
    }
    return Success(FVec3(coords[0], coords[1], coords[2]));
  }

  /** vertex_normal(): exactly three numbers. */
  function VertexNormalOf(ws: seq<string>, nums: Numbers): (r: Result<FVec3, LineError>)
    ensures r.Success? <==> |NumberPrefix(ws, nums)| == 3
    ensures r.Success? ==>
      r.value == FVec3(nums.extract(ws[0]).value, nums.extract(ws[1]).value, nums.extract(ws[2]).value)
  {
    var cs := NumberPrefix(ws, nums);
    if |cs| > 3 then Failure(Message("Too many arguments for vertex normal."))
    else if |cs| < 3 then Failure(Message("Not enough arguments for vertex normal."))
    else Success(FVec3(cs[0], cs[1], cs[2]))
  }

  // ---------------------------------------------------------------------
  // Face index groups

  /** Conversion of a float to long: truncation toward zero. */
  function Truncate(v: real): (r: int)
    ensures v >= 0.0 ==> 0 <= r && r as real <= v < r as real + 1.0
    ensures v < 0.0 ==> r <= 0 && r as real - 1.0 < v <= r as real
  {
    if v >= 0.0 then v.Floor else -((-v).Floor)
  }

  /**
   * str2long: std::stof on the whole word, truncated to long; a word with
   * characters stof did not use is "Not a valid integer".
   */
  function Str2Long(s: string, nums: Numbers): (r: Result<int, LineError>)
    ensures nums.stof(s).None? ==> r == Failure(NotANumber(s))
    ensures nums.stof(s).Some? ==> (r.Success? <==> nums.stof(s).value.1 >= |s|)
    ensures nums.stof(s).Some? && nums.stof(s).value.1 < |s| ==> r == Failure(Message("Not a valid integer: " + s))
    ensures r.Success? ==> r.value == Truncate(nums.stof(s).value.0)
  {
    match nums.stof(s)
    case None => Failure(NotANumber(s))
    case Some(read) =>
      if read.1 < |s| then Failure(Message("Not a valid integer: " + s))
      else Success(Truncate(read.0))
  }

  /** (size_t)-1, what `val - 1` becomes for the index 0. */
  const SizeMax: nat := 0xFFFF_FFFF_FFFF_FFFF

  /**
   * The 0-based position an OBJ index names among `count` elements: k > 0
   * is k-1; k < 0 counts back from the end and must not reach past the
   * start; 0 wraps around to SIZE_MAX.
   */
  function ResolveIndex(val: int, count: nat): (r: Result<nat, LineError>)
    ensures val > 0 ==> r == Success(val - 1)
    ensures val < 0 && -val > count ==> r.Failure?
    ensures val < 0 && -val <= count ==> r.Success? && r.value < count && count - r.value == -val
    ensures val == 0 ==> r == Success(SizeMax)
  {
    if val < 0 then
      if -val > count then Failure(Message("Invalid relative index: " + IntToString(val)))
      else Success(count + val)
    else if val == 0 then Success(SizeMax)
    else Success(val - 1)
  }

  /** The list the n-th part of a group indexes: 1 vertices, 2 texture vertices, 3 normals. */
  function CountFor(n: nat, sizes: Sizes): nat
  {
    if n == 2 then sizes.textureVertices else if n == 3 then sizes.vertexNormals else sizes.vertices
  }

  /**
   * One '/'-separated part, the n-th of its group: empty is allowed only
   * in the texture slot, otherwise its number is resolved against the
   * size of the list it indexes.
   */
  function PartOf(part: string, n: nat, group: string, sizes: Sizes, nums: Numbers): Result<Option<nat>, LineError>
    requires 1 <= n <= 3
  {
    if part == "" then
      if n == 2 then Success(None)
      else if n == 1 then Failure(Message("Vertex index cannot be omitted: " + group))
      else Failure(Message("Index of vertex normal cannot be omitted: " + group))
    else match Str2Long(part, nums)
      case Failure(e) => Failure(e)
      case Success(val) =>
        match ResolveIndex(val, CountFor(n, sizes))
        case Failure(e) => Failure(e)
        case Success(i) => Success(Some(i))
  }

  /** The parts of a group processed in order; a fourth part is one slash too many. */
  function PartsOf(ps: seq<string>, group: string, sizes: Sizes, nums: Numbers): (r: Result<seq<Option<nat>>, LineError>)
    ensures r.Success? ==> |r.value| == |ps| <= 3
    ensures r.Success? && |ps| >= 1 ==> r.value[0].Some?
    ensures r.Success? && |ps| >= 3 ==> r.value[2].Some?
  {
    if |ps| == 0 then Success([])
    else match PartsOf(ps[..|ps| - 1], group, sizes, nums)
      case Failure(e) => Failure(e)
      case Success(done) =>
        if |ps| > 3 then Failure(Message("Too many slashes: " + group))
        else match PartOf(ps[|ps| - 1], |ps|, group, sizes, nums)
          case Failure(e) => Failure(e)
          case Success(i) => Success(done + [i])
  }

  /**
   * The shape of a group that the groups of a face must share: its part
   * count (0 for a group without '/') and whether it has a texture index.
   */
  datatype Shape = Shape(parts: nat, hasTexture: bool)

  /** One index group: its resolved parts and its shape. */
  datatype Group = Group(indices: seq<Option<nat>>, shape: Shape)

  function GroupOf(group: string, sizes: Sizes, nums: Numbers): Result<Group, LineError>
  {
    if |group| > 0 && group[|group| - 1] == '/' then Failure(Message("Last char cannot be slash: " + group))
    else
      var ps := GetlineTokens(group, '/');
      match PartsOf(ps, group, sizes, nums)
      case Failure(e) => Failure(e)
      case Success(idx) =>
        var hasTexture := |idx| >= 2 && idx[1].Some?;
        Success(Group(idx, Shape(if '/' in group then |ps| else 0, hasTexture)))
  }

  /**
   * An accepted group of a whitespace-free word does not end in '/', has at
   * most three parts of which only the texture slot may be empty, and its
   * shape counts its parts when it has a slash.
   */
  lemma GroupAccepted(group: string, sizes: Sizes, nums: Numbers)
    requires |group| > 0
    ensures GroupOf(group, sizes, nums).Success? ==>
      group[|group| - 1] != '/' && Pieces(group, '/') == GetlineTokens(group, '/')
    ensures GroupOf(group, sizes, nums).Success? ==>
      var g, ps := GroupOf(group, sizes, nums).value, Pieces(group, '/');
      |ps| <= 3 && ps[0] != "" && (|ps| == 3 ==> ps[2] != "") &&
      (g.shape.parts == 0 <==> |ps| == 1) && (g.shape.parts != 0 ==> g.shape.parts == |ps|) &&
      (g.shape.hasTexture ==> |ps| >= 2 && ps[1] != "")
  {
    var ps := Pieces(group, '/');
    PiecesJoin(group, '/');
    if |ps| == 1 {
      assert Join(ps, '/') == ps[0];
    } else {
      assert Join(ps, '/') == ps[0] + ['/'] + Join(ps[1..], '/');
      assert '/' in group by {
        assert group[|ps[0]|] == '/';
      }
    }
    if GroupOf(group, sizes, nums).Success? {
      PiecesLastNonEmpty(group, '/');
      var idx := GroupOf(group, sizes, nums).value.indices;
      PartsOfMeaning(ps, group, sizes, nums);
    }
  }

  lemma {:induction false} PiecesLastNonEmpty(s: string, d: char)
    requires |s| > 0 && s[|s| - 1] != d
    ensures Pieces(s, d)[|Pieces(s, d)| - 1] != ""
    decreases |s|
  {
    if |s| > 1 {
      PiecesLastNonEmpty(s[1..], d);
    }
  }

  lemma {:induction false} PartsOfMeaning(ps: seq<string>, group: string, sizes: Sizes, nums: Numbers)
    requires PartsOf(ps, group, sizes, nums).Success?
    ensures |ps| >= 1 ==> ps[0] != ""
    ensures |ps| == 3 ==> ps[2] != ""
    ensures |ps| >= 2 && PartsOf(ps, group, sizes, nums).value[1].Some? ==> ps[1] != ""
  {
    if |ps| > 0 {
      var pre := ps[..|ps| - 1];
      PartsOfMeaning(pre, group, sizes, nums);
      if |ps| > 1 {
        assert pre[0] == ps[0];
      }
      if |ps| == 3 {
        assert pre[1] == ps[1];
        assert PartsOf(ps, group, sizes, nums).value[1] == PartsOf(pre, group, sizes, nums).value[1];
      }
    }
  }

  /** The lists of the Face being built, and the shape of its first group. */
  datatype FaceAcc = FaceAcc(vertices: seq<nat>, textures: seq<nat>, normals: seq<nat>, shape: Option<Shape>)

  /** The add_* calls a group's parts make on the Face. */
  function AddGroup(acc: FaceAcc, idx: seq<Option<nat>>): FaceAcc
  {
    var vs := if |idx| >= 1 && idx[0].Some? then AppendIfAbsent(acc.vertices, idx[0].value) else acc.vertices;
    var ts := if |idx| >= 2 && idx[1].Some? then AppendIfAbsent(acc.textures, idx[1].value) else acc.textures;
    var ns := if |idx| >= 3 && idx[2].Some? then acc.normals + [idx[2].value] else acc.normals;
    acc.(vertices := vs, textures := ts, normals := ns)
  }

  const SameAmount := "Every index group must contain the same amount of elements."

  /** The group loop of face(): each group parsed, added, and checked against the first one's shape. */
  function GroupsOf(gs: seq<string>, sizes: Sizes, nums: Numbers): Result<FaceAcc, LineError>
  {
    if |gs| == 0 then Success(FaceAcc([], [], [], None))
    else match GroupsOf(gs[..|gs| - 1], sizes, nums)
      case Failure(e) => Failure(e)
      case Success(acc) =>
        match GroupOf(gs[|gs| - 1], sizes, nums)
        case Failure(e) => Failure(e)
        case Success(g) =>
          var acc' := AddGroup(acc, g.indices);
          if acc.shape.Some? && acc.shape.value != g.shape then Failure(Message(SameAmount))
          else Success(acc'.(shape := Some(g.shape)))
  }

  /** The index lists of a face statement that passed validation. */
  datatype FaceIndices = FaceIndices(vertices: seq<nat>, textures: seq<nat>, normals: seq<nat>)

  const TooFewDistinct := "Faces must contain at least three distinct vertex indices."
  const TextureCount := "Faces must either contain zero or the same number of texture vertex indices as vertex indices."
  const NormalCount := "Faces must either contain zero or the same number of vertex normal indices as vertex indices."

  /** The validation at the end of face(). */
  function CheckFace(acc: FaceAcc): Result<FaceIndices, LineError>
  {
    if |acc.vertices| < 3 then Failure(Message(TooFewDistinct))
    else if |acc.textures| > 0 && |acc.textures| < |acc.vertices| then Failure(Message(TextureCount))
    else if |acc.normals| > 0 && |acc.normals| < |acc.vertices| then Failure(Message(NormalCount))
    else Success(FaceIndices(acc.vertices, acc.textures, acc.normals))
  }

  function FaceOf(gs: seq<string>, sizes: Sizes, nums: Numbers): Result<FaceIndices, LineError>
  {
    match GroupsOf(gs, sizes, nums)
    case Failure(e) => Failure(e)
    case Success(acc) => CheckFace(acc)
  }

  /**
   * An accepted face has at least three distinct vertex indices, no
   * repeated texture index, zero or at least as many texture and normal
   * indices as vertex indices, and all its groups share one shape.
   */
  lemma FaceAccepted(gs: seq<string>, sizes: Sizes, nums: Numbers)
    requires FaceOf(gs, sizes, nums).Success?
    ensures var f := FaceOf(gs, sizes, nums).value;
      |f.vertices| >= 3 && NoDup(f.vertices) && NoDup(f.textures) &&
      (|f.textures| == 0 || |f.textures| >= |f.vertices|) &&
      (|f.normals| == 0 || |f.normals| >= |f.vertices|)
    ensures forall i, j :: 0 <= i < |gs| && 0 <= j < |gs| ==>
      GroupOf(gs[i], sizes, nums).Success? && GroupOf(gs[j], sizes, nums).Success? &&
      GroupOf(gs[i], sizes, nums).value.shape == GroupOf(gs[j], sizes, nums).value.shape
  {
    GroupsOfMeaning(gs, sizes, nums);
  }

  /**
   * The accumulated lists never repeat a vertex or texture index, and
   * every group so far was accepted with the first group's shape.
   */
  lemma {:induction false} GroupsOfMeaning(gs: seq<string>, sizes: Sizes, nums: Numbers)
    requires GroupsOf(gs, sizes, nums).Success?
    ensures NoDup(GroupsOf(gs, sizes, nums).value.vertices)
    ensures NoDup(GroupsOf(gs, sizes, nums).value.textures)
    ensures |gs| == 0 <==> GroupsOf(gs, sizes, nums).value.shape.None?
    ensures forall i :: 0 <= i < |gs| ==>
      GroupOf(gs[i], sizes, nums).Success? &&
      Some(GroupOf(gs[i], sizes, nums).value.shape) == GroupsOf(gs, sizes, nums).value.shape
  {
    if |gs| > 0 {
      var pre := gs[..|gs| - 1];
      GroupsOfMeaning(pre, sizes, nums);
      var acc := GroupsOf(pre, sizes, nums).value;
      var g := GroupOf(gs[|gs| - 1], sizes, nums).value;
      AppendIfAbsentKeepsNoDup(acc.vertices, if |g.indices| >= 1 && g.indices[0].Some? then g.indices[0].value else 0);
      if |g.indices| >= 2 && g.indices[1].Some? {
        AppendIfAbsentKeepsNoDup(acc.textures, g.indices[1].value);
      }
      forall i | 0 <= i < |gs| - 1
        ensures GroupOf(gs[i], sizes, nums).Success?
        ensures Some(GroupOf(gs[i], sizes, nums).value.shape) == GroupsOf(gs, sizes, nums).value.shape
      {
        assert gs[i] == pre[i];
      }
    }
  }

  lemma {:induction false} PartsOfPrefixFails(ps: seq<string>, k: nat, group: string, sizes: Sizes, nums: Numbers)
    requires k <= |ps| && PartsOf(ps[..k], group, sizes, nums).Failure?
    ensures PartsOf(ps, group, sizes, nums) == PartsOf(ps[..k], group, sizes, nums)
    decreases |ps| - k
  {
    if k < |ps| {
      assert ps[..k + 1][..k] == ps[..k];
      PartsOfPrefixFails(ps, k + 1, group, sizes, nums);
    } else {
      assert ps[..k] == ps;
    }
  }

  lemma {:induction false} GroupsOfPrefixFails(gs: seq<string>, k: nat, sizes: Sizes, nums: Numbers)
    requires k <= |gs| && GroupsOf(gs[..k], sizes, nums).Failure?
    ensures GroupsOf(gs, sizes, nums) == GroupsOf(gs[..k], sizes, nums)
    decreases |gs| - k
  {
    if k < |gs| {
      assert gs[..k + 1][..k] == gs[..k];
      GroupsOfPrefixFails(gs, k + 1, sizes, nums);
    } else {
      assert gs[..k] == gs;
    }
  }

  // ---------------------------------------------------------------------
  // Statements and the Model they change

  /** What one line asks for, once read. */
  datatype Statement =
    | Blank
    | VertexStatement(v: FVec4)
    | TextureStatement(t: FVec3)
    | NormalStatement(n: FVec3)
    | FaceStatement(f: FaceIndices)

  /**
   * One line: everything from '#' on is dropped, the first word selects
   * the statement and the other words are its arguments; a line without
   * words does nothing.
   */
  function StatementOf(line: string, sizes: Sizes, nums: Numbers): Result<Statement, LineError>
  {
    var text := BeforeHash(line);
    var ws := Words(text);
    if |ws| == 0 then Success(Blank)
    else if ws[0] == "f" then
      match FaceOf(ws[1..], sizes, nums)
      case Failure(e) => Failure(e)
      case Success(f) => Success(FaceStatement(f))
    else if ws[0] == "v" || ws[0] == "vt" || ws[0] == "vn" then CoordinatesOf(ws[0], ws[1..], nums)
    else Failure(Message("Invalid statement: " + text))
  }

  /**
   * A line with no word before '#' does nothing, an unknown first word is
   * an invalid statement, and each kind of statement comes only from its
   * own keyword.
   */
  lemma StatementKinds(line: string, sizes: Sizes, nums: Numbers)
    ensures var ws, r := Words(BeforeHash(line)), StatementOf(line, sizes, nums);
      && (ws == [] ==> r == Success(Blank))
      && (ws != [] && ws[0] !in ["f", "v", "vt", "vn"] ==>
            r == Failure(Message("Invalid statement: " + BeforeHash(line))))
      && (r.Success? && r.value.FaceStatement? ==> ws[0] == "f")
      && (r.Success? && r.value.VertexStatement? ==> ws[0] == "v")
      && (r.Success? && r.value.TextureStatement? ==> ws[0] == "vt")
      && (r.Success? && r.value.NormalStatement? ==> ws[0] == "vn")
  {
  }

  /** The statements "v", "vt" and "vn", on their arguments. */
  function CoordinatesOf(kind: string, ws: seq<string>, nums: Numbers): Result<Statement, LineError>
  {
    if kind == "v" then
      match VertexOf(ws, nums)
      case Failure(e) => Failure(e)
      case Success(v) => Success(VertexStatement(v))
    else if kind == "vt" then
      match TextureVertexOf(ws, nums)
      case Failure(e) => Failure(e)
      case Success(t) => Success(TextureStatement(t))
    else
      match VertexNormalOf(ws, nums)
      case Failure(e) => Failure(e)
      case Success(n) => Success(NormalStatement(n))
  }

  /** What the parser changes in a Model: its lists, its face set and its flags. */
  datatype Contents = Contents(
    vertices: seq<FVec4>, textureVertices: seq<FVec3>, vertexNormals: seq<FVec3>,
    faces: seq<FaceValue>, flags: Cache)

  function ContentsOf(m: Model): Contents
    reads m
  {
    Contents(m.vertices, m.textureVertices, m.vertexNormals, m.faces, m.Flags())
  }

  function SizesOf(c: Contents): Sizes
  {
    Sizes(|c.vertices|, |c.textureVertices|, |c.vertexNormals|)
  }

  /** Model::create() */
  const Empty := Contents([], [], [], [], Cache(true, true, true, true, true, true, true, true))

  /** The face a face statement builds, owned by `owner`. */
  function FaceValueOf(f: FaceIndices, owner: object): FaceValue
  {
    FaceValue(Some(owner), f.vertices, f.textures, f.normals, None)
  }

  /** The add_vertex / add_texture_vertex / add_vertex_normal / add_face call a statement makes. */
  function Apply(c: Contents, s: Statement, owner: object): Contents
  {
    match s
    case Blank => c
    case VertexStatement(v) => c.(vertices := c.vertices + [v], flags := NeedsRecalc(c.flags))
    case TextureStatement(t) => c.(textureVertices := c.textureVertices + [t])
    case NormalStatement(n) => c.(vertexNormals := c.vertexNormals + [n])
    case FaceStatement(f) =>
      c.(faces := SetInsert(c.faces, FaceValueOf(f, owner)),
         flags := NeedsRecalc(c.flags).(isValidated := false,
                                         isTriangulated := c.flags.isTriangulated && |f.vertices| <= 3))
  }

  /** One line read into a Model holding `c`. */
  function Step(c: Contents, line: string, owner: object, nums: Numbers): Result<Contents, LineError>
  {
    match StatementOf(line, SizesOf(c), nums)
    case Failure(e) => Failure(e)
    case Success(s) => Success(Apply(c, s, owner))
  }

  /**
   * The line reader loop over a whole file: the Model after every line,
   * or the first line's error with its 1-based number.
   */
  function Run(lines: seq<string>, owner: object, nums: Numbers): Result<Contents, (LineError, nat)>
  {
    if |lines| == 0 then Success(Empty)
    else match Run(lines[..|lines| - 1], owner, nums)
      case Failure(e) => Failure(e)
      case Success(c) =>
        match Step(c, lines[|lines| - 1], owner, nums)
        case Failure(e) => Failure((e, |lines|))
        case Success(c') => Success(c')
  }

  /**
   * A line fails exactly when its statement does; the three lists only
   * grow at the end, and by at most one element per line.
   */
  lemma StepGrows(c: Contents, line: string, owner: object, nums: Numbers)
    ensures var r := Step(c, line, owner, nums);
      && (r.Failure? <==> StatementOf(line, SizesOf(c), nums).Failure?)
      && (r.Success? ==>
            && c.vertices <= r.value.vertices
            && c.textureVertices <= r.value.textureVertices
            && c.vertexNormals <= r.value.vertexNormals
            && |r.value.vertices| + |r.value.textureVertices| + |r.value.vertexNormals|
               <= |c.vertices| + |c.textureVertices| + |c.vertexNormals| + 1)
  {
  }

  /**
   * A failure names a line between 1 and the number of lines, and a parsed
   * file has at most one list element per line.
   */
  lemma {:induction false} RunBounds(lines: seq<string>, owner: object, nums: Numbers)
    ensures Run(lines, owner, nums).Failure? ==> 1 <= Run(lines, owner, nums).error.1 <= |lines|
    ensures Run(lines, owner, nums).Success? ==>
      var c := Run(lines, owner, nums).value;
      |c.vertices| + |c.textureVertices| + |c.vertexNormals| <= |lines|
  {
    if |lines| > 0 {
      var init := lines[..|lines| - 1];
      RunBounds(init, owner, nums);
      if Run(init, owner, nums).Success? {
        StepGrows(Run(init, owner, nums).value, lines[|lines| - 1], owner, nums);
      }
    }
  }

  lemma {:induction false} RunPrefixFails(lines: seq<string>, k: nat, owner: object, nums: Numbers)
    requires k <= |lines| && Run(lines[..k], owner, nums).Failure?
    ensures Run(lines, owner, nums) == Run(lines[..k], owner, nums)
    decreases |lines| - k
  {
    if k < |lines| {
      assert lines[..k + 1][..k] == lines[..k];
      RunPrefixFails(lines, k + 1, owner, nums);
    } else {
      assert lines[..k] == lines;
    }
  }

  /**
   * A failed parse names the first line that failed: every line before it
   * was read, and the line itself fails with the reported error.
   */
  lemma {:induction false} FirstFailingLine(lines: seq<string>, owner: object, nums: Numbers)
    requires Run(lines, owner, nums).Failure?
    ensures var (e, n) := Run(lines, owner, nums).error;
      1 <= n <= |lines| && Run(lines[..n - 1], owner, nums).Success? &&
      Step(Run(lines[..n - 1], owner, nums).value, lines[n - 1], owner, nums) == Failure(e)
  {
    var pre := lines[..|lines| - 1];
    if Run(pre, owner, nums).Failure? {
      FirstFailingLine(pre, owner, nums);
      var n := Run(pre, owner, nums).error.1;
      assert pre[..n - 1] == lines[..n - 1];
    } else {
      assert lines[..|lines| - 1] == pre;
    }
  }

  /** Text up to the first '#' on a line. */
  lemma {:induction false} BeforeHashOfComment(text: string, comment: string)
    requires '#' !in text
    ensures BeforeHash(text + ['#'] + comment) == text
  {
    if |text| > 0 {
      assert (text + ['#'] + comment)[1..] == text[1..] + ['#'] + comment;
      BeforeHashOfComment(text[1..], comment);
    }
  }

  /** A comment changes nothing: the line reads as the text before its '#'. */
  lemma CommentIgnored(text: string, comment: string, sizes: Sizes, nums: Numbers)
    requires '#' !in text
    ensures StatementOf(text + ['#'] + comment, sizes, nums) == StatementOf(text, sizes, nums)
  {
    BeforeHashOfComment(text, comment);
  }

  /** The statement keyword of a line: its first word once the comment is dropped. */
  function Keyword(line: string): string
  {
    var ws := Words(BeforeHash(line));
    if |ws| == 0 then "" else ws[0]
  }

  /** How many lines carry a given keyword. */
  function CountKeyword(lines: seq<string>, kw: string): (n: nat)
    ensures n <= |lines|
  {
    if |lines| == 0 then 0
    else CountKeyword(lines[..|lines| - 1], kw) + (if Keyword(lines[|lines| - 1]) == kw then 1 else 0)
  }

  /**
   * After a successful parse the Model holds one vertex per "v" line, one
   * texture vertex per "vt" line, one normal per "vn" line, and at most one
   * face per "f" line (a face equivalent to one already held is not added).
   */
  lemma {:induction false} RunCounts(lines: seq<string>, owner: object, nums: Numbers)
    requires Run(lines, owner, nums).Success?
    ensures |Run(lines, owner, nums).value.vertices| == CountKeyword(lines, "v")
    ensures |Run(lines, owner, nums).value.textureVertices| == CountKeyword(lines, "vt")
    ensures |Run(lines, owner, nums).value.vertexNormals| == CountKeyword(lines, "vn")
    ensures |Run(lines, owner, nums).value.faces| <= CountKeyword(lines, "f")
  {
    if |lines| > 0 {
      var pre := lines[..|lines| - 1];
      RunCounts(pre, owner, nums);
      StepCounts(Run(pre, owner, nums).value, lines[|lines| - 1], owner, nums);
    }
  }

  /** What one accepted line adds, by its keyword. */
  lemma StepCounts(c: Contents, line: string, owner: object, nums: Numbers)
    requires Step(c, line, owner, nums).Success?
    ensures var c', kw := Step(c, line, owner, nums).value, Keyword(line);
      |c'.vertices| == |c.vertices| + (if kw == "v" then 1 else 0) &&
      |c'.textureVertices| == |c.textureVertices| + (if kw == "vt" then 1 else 0) &&
      |c'.vertexNormals| == |c.vertexNormals| + (if kw == "vn" then 1 else 0) &&
      |c'.faces| <= |c.faces| + (if kw == "f" then 1 else 0)
  {
    var s := StatementOf(line, SizesOf(c), nums).value;
    assert Step(c, line, owner, nums).value == Apply(c, s, owner);
    StatementKeyword(line, SizesOf(c), nums);
    ApplyCounts(c, s, owner);
  }

  lemma ApplyCounts(c: Contents, s: Statement, owner: object)
    ensures var c', kw := Apply(c, s, owner), KeywordOf(s);
      |c'.vertices| == |c.vertices| + (if kw == "v" then 1 else 0) &&
      |c'.textureVertices| == |c.textureVertices| + (if kw == "vt" then 1 else 0) &&
      |c'.vertexNormals| == |c.vertexNormals| + (if kw == "vn" then 1 else 0) &&
      |c'.faces| <= |c.faces| + (if kw == "f" then 1 else 0)
  {
    if s.FaceStatement? {
      var f := FaceValueOf(s.f, owner);
      if !HasEquivalent(c.faces, f) {
        InsertByKeyAt(c.faces, f, 0);
      }
    }
  }

  /** The keyword a statement is written with. */
  function KeywordOf(s: Statement): string
  {
    match s
    case Blank => ""
    case VertexStatement(_) => "v"
    case TextureStatement(_) => "vt"
    case NormalStatement(_) => "vn"
    case FaceStatement(_) => "f"
  }

  /** An accepted line reads as the statement its keyword names. */
  lemma StatementKeyword(line: string, sizes: Sizes, nums: Numbers)
    requires StatementOf(line, sizes, nums).Success?
    ensures KeywordOf(StatementOf(line, sizes, nums).value) == Keyword(line)
  {
    var ws := Words(BeforeHash(line));
    if |ws| > 0 && ws[0] != "f" {
      assert CoordinatesOf(ws[0], ws[1..], nums).Success?;
    }
  }

  /** A file of blank and comment lines gives an empty Model. */
  lemma {:induction false} NothingButComments(lines: seq<string>, owner: object, nums: Numbers)
    requires forall k :: 0 <= k < |lines| ==> Keyword(lines[k]) == ""
    ensures Run(lines, owner, nums) == Success(Empty)
  {
    if |lines| > 0 {
      var pre := lines[..|lines| - 1];
      assert forall k :: 0 <= k < |pre| ==> Keyword(pre[k]) == "" by {
        forall k | 0 <= k < |pre| ensures Keyword(pre[k]) == "" {
          assert pre[k] == lines[k];
        }
      }
      NothingButComments(pre, owner, nums);
      WordsSplit(BeforeHash(lines[|lines| - 1]));
    }
  }

  // ---------------------------------------------------------------------
  // The parser

  /** The vertex, texture vertex and normal lists of a Face being built, with a shape. */
  function AccOf(face: Face, shape: Option<Shape>): FaceAcc
    reads face
  {
    FaceAcc(face.vertices, face.textureVertices, face.vertexNormals, shape)
  }

  /**
   * One index group of face(): the getline loop over its '/'-separated
   * parts, each resolved and handed to the matching add function of the
   * Face, then the group's shape.
   */
  method ParseGroup(face: Face, group: string, sizes: Sizes, nums: Numbers) returns (r: Result<Shape, LineError>)
    requires |group| > 0
    modifies face
    ensures face.owner == old(face.owner) && face.isNormalSet == old(face.isNormalSet)
    ensures GroupOf(group, sizes, nums).Failure? ==> r == Failure(GroupOf(group, sizes, nums).error)
    ensures GroupOf(group, sizes, nums).Success? ==>
      r == Success(GroupOf(group, sizes, nums).value.shape) &&
      AccOf(face, None) == AddGroup(old(AccOf(face, None)), GroupOf(group, sizes, nums).value.indices)
  {
    if group[|group| - 1] == '/' {
      return Failure(Message("Last char cannot be slash: " + group));
    }
    var ps := GetlineTokens(group, '/');
    ghost var acc0 := AccOf(face, None);
    ghost var idx: seq<Option<nat>> := [];
    var hasTexture := false;
    var n := 0;
    while n < |ps|
      invariant n <= |ps|
      invariant PartsOf(ps[..n], group, sizes, nums) == Success(idx)
      invariant AccOf(face, None) == AddGroup(acc0, idx)
      invariant hasTexture == (|idx| >= 2 && idx[1].Some?)
      invariant face.owner == old(face.owner) && face.isNormalSet == old(face.isNormalSet)
    {
      var p := NextPart(face, ps, n, group, sizes, nums, acc0, idx);
      if p.Failure? {
        PartsOfPrefixFails(ps, n + 1, group, sizes, nums);
        return Failure(p.error);
      }
      hasTexture := hasTexture || (n == 1 && p.value.Some?);
      idx := idx + [p.value];
      n := n + 1;
    }
    assert ps[..n] == ps;
    r := Success(Shape(if '/' in group then n else 0, hasTexture));
  }

  /** One pass of the getline loop of face(): the n-th part (from 0) of a group. */
  method NextPart(face: Face, ps: seq<string>, n: nat, group: string, sizes: Sizes, nums: Numbers,
                  ghost acc0: FaceAcc, ghost idx: seq<Option<nat>>)
    returns (r: Result<Option<nat>, LineError>)
    requires n < |ps| && PartsOf(ps[..n], group, sizes, nums) == Success(idx)
    requires AccOf(face, None) == AddGroup(acc0, idx)
    modifies face
    ensures face.owner == old(face.owner) && face.isNormalSet == old(face.isNormalSet)
    ensures PartsOf(ps[..n + 1], group, sizes, nums).Failure? ==>
      r == Failure(PartsOf(ps[..n + 1], group, sizes, nums).error)
    ensures PartsOf(ps[..n + 1], group, sizes, nums).Success? ==>
      r.Success? && PartsOf(ps[..n + 1], group, sizes, nums) == Success(idx + [r.value]) &&
      AccOf(face, None) == AddGroup(acc0, idx + [r.value])
  {
    assert ps[..n + 1][..n] == ps[..n];
    if n + 1 > 3 {
      return Failure(Message("Too many slashes: " + group));
    }
    r := PartOf(ps[n], n + 1, group, sizes, nums);
    if r.Success? {
      AddPart(face, n, r.value);
    }
  }

  /** The add function the n-th part (from 0) calls, when the part is not empty. */
  method AddPart(face: Face, n: nat, i: Option<nat>)
    requires n <= 2
    modifies face
    ensures face.owner == old(face.owner) && face.isNormalSet == old(face.isNormalSet)
    ensures i.None? ==> AccOf(face, None) == old(AccOf(face, None))
    ensures i.Some? && n == 0 ==> AccOf(face, None) == old(AccOf(face, None)).(vertices := AppendIfAbsent(old(face.vertices), i.value))
    ensures i.Some? && n == 1 ==> AccOf(face, None) == old(AccOf(face, None)).(textures := AppendIfAbsent(old(face.textureVertices), i.value))
    ensures i.Some? && n == 2 ==> AccOf(face, None) == old(AccOf(face, None)).(normals := old(face.vertexNormals) + [i.value])
  {
    if i.Some? {
      if n == 0 {
        face.AddVertex(i.value);
      } else if n == 1 {
        face.AddTextureVertex(i.value);
      } else {
        face.AddVertexNormal(i.value);
      }
    }
  }

  /** One pass of the group loop of face(): the k-th group read and checked against the shape so far. */
  method NextGroup(face: Face, ws: seq<string>, k: nat, shape: Option<Shape>, sizes: Sizes, nums: Numbers)
    returns (r: Result<Shape, LineError>)
    requires k < |ws| && |ws[k]| > 0
    requires GroupsOf(ws[..k], sizes, nums) == Success(AccOf(face, shape))
    modifies face
    ensures face.owner == old(face.owner) && face.isNormalSet == old(face.isNormalSet)
    ensures GroupsOf(ws[..k + 1], sizes, nums).Failure? ==>
      r == Failure(GroupsOf(ws[..k + 1], sizes, nums).error)
    ensures GroupsOf(ws[..k + 1], sizes, nums).Success? ==>
      r.Success? && GroupsOf(ws[..k + 1], sizes, nums) == Success(AccOf(face, Some(r.value)))
  {
    assert ws[..k + 1][..k] == ws[..k];
    r := ParseGroup(face, ws[k], sizes, nums);
    if r.Success? && shape.Some? && shape.value != r.value {
      r := Failure(Message(SameAmount));
    }
  }

  /** The group loop of face(), on a Face of the Model. */
  method ReadGroups(face: Face, ws: seq<string>, sizes: Sizes, nums: Numbers) returns (r: Outcome<LineError>)
    requires forall k :: 0 <= k < |ws| ==> |ws[k]| > 0
    requires AccOf(face, None) == FaceAcc([], [], [], None)
    modifies face
    ensures face.owner == old(face.owner) && face.isNormalSet == old(face.isNormalSet)
    ensures GroupsOf(ws, sizes, nums).Failure? ==> r == Fail(GroupsOf(ws, sizes, nums).error)
    ensures GroupsOf(ws, sizes, nums).Success? ==>
      r == Pass && AccOf(face, None) == GroupsOf(ws, sizes, nums).value.(shape := None)
  {
    var shape: Option<Shape> := None;
    var k := 0;
    while k < |ws|
      invariant k <= |ws|
      invariant GroupsOf(ws[..k], sizes, nums) == Success(AccOf(face, shape))
      invariant face.owner == old(face.owner) && face.isNormalSet == old(face.isNormalSet)
    {
      var g := NextGroup(face, ws, k, shape, sizes, nums);
      if g.Failure? {
        GroupsOfPrefixFails(ws, k + 1, sizes, nums);
        return Fail(g.error);
      }
      shape := Some(g.value);
      k := k + 1;
    }
    assert ws[..k] == ws;
    r := Pass;
  }

  /**
   * face(): the groups are read into a new Face of the Model, the face
   * validated and handed to add_face.
   */
  method ParseFace(model: Model, ws: seq<string>, nums: Numbers) returns (r: Outcome<LineError>)
    requires model.Valid()
    requires forall k :: 0 <= k < |ws| ==> |ws[k]| > 0
    modifies model
    ensures model.Valid()
    ensures FaceOf(ws, old(model.ListSizes()), nums).Failure? ==>
      r == Fail(FaceOf(ws, old(model.ListSizes()), nums).error) && ContentsOf(model) == old(ContentsOf(model))
    ensures FaceOf(ws, old(model.ListSizes()), nums).Success? ==>
      r == Pass &&
      ContentsOf(model) == Apply(old(ContentsOf(model)), FaceStatement(FaceOf(ws, old(model.ListSizes()), nums).value), model)
  {
    ghost var c0 := ContentsOf(model);
    var sizes := model.ListSizes();
    var face := new Face(Some(model));
    r := ReadGroups(face, ws, sizes, nums);
    if r.Fail? {
      return;
    }
    ghost var acc := GroupsOf(ws, sizes, nums).value;
    assert acc.vertices == face.vertices && acc.textures == face.textureVertices && acc.normals == face.vertexNormals;
    if |face.vertices| < 3 {
      return Fail(Message(TooFewDistinct));
    }
    if |face.textureVertices| > 0 && |face.textureVertices| < |face.vertices| {
      return Fail(Message(TextureCount));
    }
    if |face.vertexNormals| > 0 && |face.vertexNormals| < |face.vertices| {
      return Fail(Message(NormalCount));
    }
    ghost var fi := FaceIndices(face.vertices, face.textureVertices, face.vertexNormals);
    assert FaceOf(ws, sizes, nums) == Success(fi);
    assert face.Value() == FaceValueOf(fi, model);
    var added := model.AddFace(face);
    ApplyFace(c0, fi, model, ContentsOf(model));
  }

  lemma ApplyFace(c0: Contents, fi: FaceIndices, owner: object, c1: Contents)
    requires c1.vertices == c0.vertices && c1.textureVertices == c0.textureVertices
    requires c1.vertexNormals == c0.vertexNormals
    requires c1.faces == SetInsert(c0.faces, FaceValueOf(fi, owner))
    requires c1.flags == NeedsRecalc(c0.flags).(isValidated := false,
                                                isTriangulated := c0.flags.isTriangulated && |fi.vertices| <= 3)
    ensures c1 == Apply(c0, FaceStatement(fi), owner)
  {
  }

  /** vertex(), texture_vertex() and vertex_normal() up to the add call. */
  method ParseCoordinates(kind: string, ws: seq<string>, nums: Numbers) returns (r: Result<Statement, LineError>)
    ensures r == CoordinatesOf(kind, ws, nums)
  {
    if kind == "vt" {
      var t := ReadTextureVertex(ws, nums);
      r := if t.Failure? then Failure(t.error) else Success(TextureStatement(t.value));
      return;
    }
    var cs := ReadCoordinates(ws, nums);
    if kind == "v" {
      if |cs| > 4 {
        r := Failure(Message(VertexTooMany));
      } else if |cs| == 3 {
        r := Success(VertexStatement(FVec4(cs[0], cs[1], cs[2], 1.0)));
      } else {
        r := Failure(Message(VertexNotEnough));
      }
    } else {
      if |cs| > 3 {
        r := Failure(Message("Too many arguments for vertex normal."));
      } else if |cs| < 3 {
        r := Failure(Message("Not enough arguments for vertex normal."));
      } else {
        r := Success(NormalStatement(FVec3(cs[0], cs[1], cs[2])));
      }
    }
  }

  /** A "v", "vt" or "vn" statement, read and added to the Model. */
  method ParseCoordinateLine(model: Model, kind: string, ws: seq<string>, nums: Numbers) returns (r: Outcome<LineError>)
    requires model.Valid()
    modifies model
    ensures model.Valid()
    ensures CoordinatesOf(kind, ws, nums).Failure? ==>
      r == Fail(CoordinatesOf(kind, ws, nums).error) && ContentsOf(model) == old(ContentsOf(model))
    ensures CoordinatesOf(kind, ws, nums).Success? ==>
      r == Pass && ContentsOf(model) == Apply(old(ContentsOf(model)), CoordinatesOf(kind, ws, nums).value, model)
  {
    var s := ParseCoordinates(kind, ws, nums);
    if s.Failure? {
      return Fail(s.error);
    }
    r := Pass;
    match s.value {
      case VertexStatement(v) => model.AddVertex(v);
      case TextureStatement(t) => model.AddTextureVertex(t);
      case NormalStatement(n) => model.AddVertexNormal(n);
    }
  }

  /**
   * One pass of the line reader loop: the comment erased, the first word
   * looked up among the statements and its function run on the rest.
   * A line that fails leaves the Model as it was.
   */
  method ParseLine(model: Model, line: string, nums: Numbers) returns (r: Outcome<LineError>)
    requires model.Valid()
    modifies model
    ensures model.Valid()
    ensures r.Pass? <==> Step(old(ContentsOf(model)), line, model, nums).Success?
    ensures r.Pass? ==> ContentsOf(model) == Step(old(ContentsOf(model)), line, model, nums).value
    ensures r.Fail? ==>
      r.error == Step(old(ContentsOf(model)), line, model, nums).error && ContentsOf(model) == old(ContentsOf(model))
  {
    var text := BeforeHash(line);
    var ws := Words(text);
    if |ws| == 0 {
      return Pass;
    }
    var tok := ws[0];
    if tok == "f" {
      WordsSplit(text);
      r := ParseFace(model, ws[1..], nums);
    } else if tok == "v" || tok == "vt" || tok == "vn" {
      r := ParseCoordinateLine(model, tok, ws[1..], nums);
    } else {
      r := Fail(Message("Invalid statement: " + text));
    }
  }

  /**
   * OBJParser::operator(): a new Model, filled line by line while the
   * file is open; the first failing line ends the parse with its error,
   * the file name and its 1-based line number.
   */
  method ParseObj(lines: seq<string>, isOpen: bool, filename: string, nums: Numbers) returns (model: Model, r: Outcome<ParseError>)
    ensures fresh(model) && model.Valid()
    ensures !isOpen ==> r == Pass && ContentsOf(model) == Empty
    ensures isOpen && Run(lines, model, nums).Success? ==> r == Pass && ContentsOf(model) == Run(lines, model, nums).value
    ensures isOpen && Run(lines, model, nums).Failure? ==>
      r == Fail(ParseError(Run(lines, model, nums).error.0, filename, Run(lines, model, nums).error.1))
  {
    model := new Model();
    r := Pass;
    if !isOpen {
      return;
    }
    var lcnt := 0;
    while lcnt < |lines|
      invariant lcnt <= |lines|
      invariant fresh(model) && model.Valid()
      invariant Run(lines[..lcnt], model, nums) == Success(ContentsOf(model))
    {
      var line := lines[lcnt];
      assert lines[..lcnt + 1][..lcnt] == lines[..lcnt];
      lcnt := lcnt + 1;
      var res := ParseLine(model, line, nums);
      if res.Fail? {
        RunPrefixFails(lines, lcnt, model, nums);
        return model, Fail(ParseError(res.error, filename, lcnt));
      }
    }
    assert lines[..lcnt] == lines;
  }
}
