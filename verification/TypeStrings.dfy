/** The type-string parser of scripts/shape_type_coverage.py: a scanner that splits at commas
    outside brackets, and mutually recursive predicates over its results. Both are related to
    type trees: printing a tree and parsing it back, and the predicates read off the tree. */
module TypeStrings {
  import opened Outcomes

  /** `str.isspace` for one character. */
  predicate IsSpace(c: char) {
    var i := c as int;
    9 <= i <= 13 || 28 <= i <= 32 || i == 0x85 || i == 0xA0 || i == 0x1680 || 0x2000 <= i <= 0x200A
    || i == 0x2028 || i == 0x2029 || i == 0x202F || i == 0x205F || i == 0x3000
  }

  function Strip(s: string): (r: string)
    ensures |r| <= |s|
  {
    if s == "" then ""
    else if IsSpace(s[0]) then Strip(s[1..])
    else if IsSpace(s[|s| - 1]) then Strip(s[..|s| - 1])
    else s
  }

  /** Spaces are cut off at both ends, all of them and nothing else. */
  lemma {:induction false} StripsSpaces(s: string) returns (i: nat, j: nat)
    ensures i <= j <= |s| && Strip(s) == s[i..j]
    ensures (forall k :: 0 <= k < i ==> IsSpace(s[k])) && (forall k :: j <= k < |s| ==> IsSpace(s[k]))
    ensures i < j ==> !IsSpace(s[i]) && !IsSpace(s[j - 1])
  {
    if s == "" {
      i, j := 0, 0;
    } else if IsSpace(s[0]) {
      var a, b := StripsSpaces(s[1..]);
      i, j := a + 1, b + 1;
      assert s[1..][a..b] == s[i..j];
      assert forall k :: 0 < k < |s| ==> s[k] == s[1..][k - 1];
    } else if IsSpace(s[|s| - 1]) {
      i, j := StripsSpaces(s[..|s| - 1]);
      assert s[..|s| - 1][i..j] == s[i..j];
    } else {
      i, j := 0, |s|;
    }
  }

  function StripAll(ss: seq<string>): (r: seq<string>)
    ensures |r| == |ss| && forall i :: 0 <= i < |ss| ==> r[i] == Strip(ss[i])
  {
    seq(|ss|, i requires 0 <= i < |ss| => Strip(ss[i]))
  }

  // ----- Splitting

  function DepthAfter(c: char, depth: int): int {
    if c == '[' then depth + 1 else if c == ']' then depth - 1 else depth
  }

  /** The loop of `_split_list` from a given state on. */
  function Scan(s: string, depth: int, current: string, done: seq<string>): seq<string>
    decreases |s|
  {
    if s == "" then
      if current == "" then done else done + [current]
    else if s[0] == ',' && depth == 0 then
      Scan(s[1..], 0, "", done + [current])
    else
      Scan(s[1..], DepthAfter(s[0], depth), current + [s[0]], done)
  }

  /** `None` when the assertion, or the indexing in it, raises. */
  function SplitList(s: string): Option<seq<string>>
  {
    if s == "" || s[0] != '[' || s[|s| - 1] != ']' then None
    else Some(StripAll(Scan(s[1..|s| - 1], 0, "", [])))
  }

  // ----- Where any string is split

  /** Opening minus closing brackets. */
  function Depth(s: string): int {
    if s == "" then 0
    else
      var c := s[|s| - 1];
      Depth(s[..|s| - 1]) + if c == '[' then 1 else if c == ']' then -1 else 0
  }

  function Joined(pieces: seq<string>): string
    requires pieces != []
  {
    if |pieces| == 1 then pieces[0] else Joined(pieces[..|pieces| - 1]) + "," + pieces[|pieces| - 1]
  }

  /** All commas are inside brackets. */
  ghost predicate HasNoCut(s: string) {
    forall k :: 0 <= k < |s| && s[k] == ',' ==> Depth(s[..k]) != 0
  }

  /** The pieces of a text, of which only the last may be at another depth than 0. */
  ghost predicate ArePieces(pieces: seq<string>, text: string) {
    && pieces != [] && Joined(pieces) == text
    && (forall i :: 0 <= i < |pieces| ==> HasNoCut(pieces[i]))
    && (forall i :: 0 <= i < |pieces| - 1 ==> Depth(pieces[i]) == 0)
  }

  lemma {:induction false} DepthOfLonger(s: string, c: char)
    ensures Depth(s + [c]) == DepthAfter(c, Depth(s))
    ensures HasNoCut(s) && !(c == ',' && Depth(s) == 0) ==> HasNoCut(s + [c])
  {
    assert (s + [c])[..|s|] == s;
    assert forall k :: 0 <= k < |s| ==> (s + [c])[..k] == s[..k];
  }

  lemma {:induction false} PiecesGrow(done: seq<string>, current: string, c: char, text: string)
    requires ArePieces(done + [current], text)
    ensures c == ',' && Depth(current) == 0 ==> ArePieces(done + [current] + [""], text + [c])
    ensures !(c == ',' && Depth(current) == 0) ==> ArePieces(done + [current + [c]], text + [c])
  {
    var pieces := done + [current];
    if c == ',' && Depth(current) == 0 {
      var longer := pieces + [""];
      assert longer[..|pieces|] == pieces;
      assert Joined(longer) == text + "," + "" == text + [c];
    } else {
      var longer := done + [current + [c]];
      assert longer[..|done|] == done == pieces[..|done|];
      assert Joined(longer) == text + [c] by {
        if done != [] {
          assert Joined(done) + "," + (current + [c]) == Joined(done) + "," + current + [c];
        }
      }
      assert HasNoCut(pieces[|done|]);
      DepthOfLonger(current, c);
      forall i | 0 <= i < |longer| ensures HasNoCut(longer[i]) {
        assert i < |done| ==> longer[i] == pieces[i];
      }
    }
  }

  /** Every text is cut at exactly the commas outside brackets, and an empty last piece is dropped. */
  lemma {:induction false} CutsOutsideBrackets(s: string, depth: int, current: string, done: seq<string>, text: string)
    returns (pieces: seq<string>)
    requires ArePieces(done + [current], text) && depth == Depth(current)
    ensures ArePieces(pieces, text + s)
    ensures var n := |pieces| - 1;
            Scan(s, depth, current, done) == if pieces[n] == "" then pieces[..n] else pieces
    decreases |s|
  {
    if s == "" {
      pieces := done + [current];
      assert text + s == text && pieces[..|done|] == done;
    } else {
      var c := s[0];
      PiecesGrow(done, current, c, text);
      assert text + [c] + s[1..] == text + s;
      if c == ',' && depth == 0 {
        pieces := CutsOutsideBrackets(s[1..], 0, "", done + [current], text + [c]);
      } else {
        DepthOfLonger(current, c);
        pieces := CutsOutsideBrackets(s[1..], DepthAfter(c, depth), current + [c], done, text + [c]);
      }
    }
  }

  /** Splitting a bracketed list, whatever is in it. */
  lemma SplitsOutsideBrackets(s: string) returns (pieces: seq<string>)
    requires |s| > 1 && s[0] == '[' && s[|s| - 1] == ']'
    ensures ArePieces(pieces, s[1..|s| - 1])
    ensures var n := |pieces| - 1;
            SplitList(s) == Some(StripAll(if pieces[n] == "" then pieces[..n] else pieces))
  {
    assert ArePieces([] + [""], "");
    pieces := CutsOutsideBrackets(s[1..|s| - 1], 0, "", [], "");
    assert "" + s[1..|s| - 1] == s[1..|s| - 1];
  }

  method SplitListLoop(s: string) returns (r: Option<seq<string>>)
    ensures r == SplitList(s)
    ensures r.None? <==> s == "" || s[0] != '[' || s[|s| - 1] != ']'
  {
    if s == "" || s[0] != '[' || s[|s| - 1] != ']' {
      return None;
    }
    var inner := s[1..|s| - 1];
    var nestingDepth, allStrings, current := 0, [], "";
    for i := 0 to |inner|
      invariant Scan(inner[i..], nestingDepth, current, allStrings) == Scan(inner, 0, "", [])
    {
      var c := inner[i];
      assert inner[i..][0] == c && inner[i..][1..] == inner[i + 1..];
      if c == ',' && nestingDepth == 0 {
        allStrings, current := allStrings + [current], "";
        continue;
      }
      if c == '[' {
        nestingDepth := nestingDepth + 1;
      } else if c == ']' {
        nestingDepth := nestingDepth - 1;
      }
      current := current + [c];
    }
    if current != "" {
      allStrings := allStrings + [current];
    }
    return Some(StripAll(allStrings));
  }

  /** `str.find`, or the length when there is none. */
  function Find(s: string, c: char): (i: nat)
    ensures i <= |s| && c !in s[..i] && (i < |s| ==> s[i] == c)
  {
    if s == "" || s[0] == c then 0 else 1 + Find(s[1..], c)
  }

  /** `str.rfind`: one past the last occurrence, or 0 when there is none. */
  function FindLast(s: string, c: char): (i: nat)
    ensures i <= |s| && c !in s[i..] && (i > 0 ==> s[i - 1] == c)
  {
    if s == "" then 0 else if s[|s| - 1] == c then |s| else FindLast(s[..|s| - 1], c)
  }

  datatype Parsed = Simple | Parametric(name: string, parameters: seq<string>) | Raises

  function ParametricType(s: string): Parsed
  {
    var left, right := Find(s, '['), FindLast(s, ']');
    if left == |s| || right == 0 then Simple
    else if left >= right then Raises  // the slice is empty
    else
      match SplitList(s[left..right])
      case None => Raises
      case Some(parameters) => Parametric(s[..left], parameters)
  }

  /** Parsing raises exactly when both brackets occur and the last `]` is before the first `[`. */
  lemma {:induction false} RaisesExactlyWhen(s: string)
    ensures ParametricType(s).Raises? <==> Find(s, '[') < |s| && 0 < FindLast(s, ']') <= Find(s, '[')
  {
  }

  /** A string on which parsing raises. */
  lemma ClosedBeforeOpened()
    ensures ParametricType("][").Raises?
  {
    var s := "][";
    assert s[0] == ']' && s[1] == '[' && s[0..] == s;
    assert s[0] in s[0..] && s[1] in s[..2];
    assert Find(s, '[') == 1 && FindLast(s, ']') == 1;
    RaisesExactlyWhen(s);
  }

  lemma {:induction false} ScanBound(s: string, depth: int, current: string, done: seq<string>, bound: nat)
    requires |current| + |s| <= bound && forall x :: x in done ==> |x| <= bound
    ensures forall x :: x in Scan(s, depth, current, done) ==> |x| <= bound
    decreases |s|
  {
    if s == "" {
    } else {
      if s[0] == ',' && depth == 0 {
        ScanBound(s[1..], 0, "", done + [current], bound);
      } else {
        ScanBound(s[1..], DepthAfter(s[0], depth), current + [s[0]], done, bound);
      }
    }
  }

  /** Parameters are shorter than the string they come from, whatever the string. */
  lemma ParametersAreShorter(s: string)
    ensures var p := ParametricType(s);
            p.Parametric? ==> forall x :: x in p.parameters ==> |x| < |s|
  {
    var p := ParametricType(s);
    if p.Parametric? {
      var list := s[Find(s, '[')..FindLast(s, ']')];
      var parts := Scan(list[1..|list| - 1], 0, "", []);
      ScanBound(list[1..|list| - 1], 0, "", [], |list| - 2);
      forall x | x in p.parameters ensures |x| < |s| {
        var i :| 0 <= i < |p.parameters| && p.parameters[i] == x;
        assert parts[i] in parts;
      }
    }
  }

  // ----- Predicates on strings; `None` means that they raise

  predicate EndsWith(s: string, suffix: string) {
    |suffix| <= |s| && s[|s| - |suffix|..] == suffix
  }

  /** Which characters `str.isnumeric` accepts; all that matters is that `]` is not one of them. */
  type NumericTest = t: char -> bool | !t(']') witness (c => '0' <= c <= '9')

  predicate IsNumeric(numeric: NumericTest, s: string) {
    s != "" && forall i :: 0 <= i < |s| ==> numeric(s[i])
  }

  const BOUND_TO_INT := "(bound to int)"

  function Or(a: Option<bool>, b: Option<bool>): Option<bool> {
    if a == Some(false) then b else a
  }

  function And(a: Option<bool>, b: Option<bool>): Option<bool> {
    if a == Some(true) then b else a
  }

  /** A test of the shape `parametric is not None and <condition on it>`. */
  function WhenParametric(s: string, condition: (string, seq<string>) -> bool): Option<bool> {
    match ParametricType(s)
    case Simple => Some(false)
    case Raises => None
    case Parametric(name, parameters) => Some(condition(name, parameters))
  }

  function IsIntVariable(s: string): Option<bool> {
    WhenParametric(s, (name, ps: seq<string>) => name == "Variable" && |ps| == 1 && EndsWith(ps[0], BOUND_TO_INT))
  }

  function IsLiteralInteger(numeric: NumericTest, s: string): Option<bool> {
    WhenParametric(s, (name, ps: seq<string>) =>
      name == "typing_extensions.Literal" && |ps| == 1 && IsNumeric(numeric, ps[0]))
  }

  function IsIntExpression(s: string): Option<bool> {
    WhenParametric(s, (name, ps: seq<string>) => name == "pyre_extensions.IntExpression" && |ps| == 1)
  }

  function IsPreciseUnpacked(numeric: NumericTest, s: string): Option<bool>
    decreases |s|, 4
  {
    if s == "" || s[0] != '*' then Some(false)
    else
      match ParametricType(s[1..])
      case Simple => Some(true)
      case Raises => None
      case Parametric(_, _) => IsPreciseTuple(numeric, s[1..])
  }

  function IsPreciseTensorDimension(numeric: NumericTest, s: string): Option<bool>
    decreases |s|, 5
  {
    Or(IsLiteralInteger(numeric, s), Or(IsIntVariable(s), Or(IsPreciseUnpacked(numeric, s), IsIntExpression(s))))
  }

  function IsPreciseTuple(numeric: NumericTest, s: string): Option<bool>
    decreases |s|, 3
  {
    match ParametricType(s)
    case Simple => Some(false)
    case Raises => None
    case Parametric(name, parameters) =>
      ParametersAreShorter(s);
      if name == "Tuple" || name == "typing.Tuple" then AllDimensions(numeric, parameters, |s|)
      else if name == "Broadcast" && |parameters| == 2 then AllTuples(numeric, parameters, |s|)
      else Some(false)
  }

  /** `all(...)` stops at the first element that is false. */
  function AllDimensions(numeric: NumericTest, ss: seq<string>, ghost bound: nat): Option<bool>
    requires forall x :: x in ss ==> |x| < bound
    decreases bound, 2, |ss|
  {
    if ss == [] then Some(true)
    else And(IsPreciseTensorDimension(numeric, ss[0]), AllDimensions(numeric, ss[1..], bound))
  }

  function AllTuples(numeric: NumericTest, ss: seq<string>, ghost bound: nat): Option<bool>
    requires forall x :: x in ss ==> |x| < bound
    decreases bound, 2, |ss|
  {
    if ss == [] then Some(true)
    else And(IsPreciseTuple(numeric, ss[0]), AllTuples(numeric, ss[1..], bound))
  }

  /** How `_collect_shape_types` files an annotation: only tensors count, and all parameters
      from the second on must be precise dimensions. */
  datatype Shape = NotTensor | Precise | Imprecise | Failed

  function Classify(numeric: NumericTest, s: string): Shape {
    match ParametricType(s)
    case Simple => NotTensor
    case Raises => Failed
    case Parametric(name, parameters) =>
      if name != "torch.Tensor" then NotTensor
      else if parameters == [] then Precise
      else
        ParametersAreShorter(s);
        match AllDimensions(numeric, parameters[1..], |s|)
        case None => Failed
        case Some(precise) => if precise then Precise else Imprecise
  }

  // ----- Type trees

  datatype Type = Leaf(name: string) | Generic(name: string, args: seq<Type>)

  predicate IsPlain(s: string) {
    forall i :: 0 <= i < |s| ==> s[i] != '[' && s[i] != ']' && s[i] != ','
  }

  /** Names contain no separators and do not begin with a space; a leaf is not empty and does not
      end with a space either. A generic name may be empty, as in `[int]`. */
  predicate WellFormed(t: Type) {
    match t
    case Leaf(name) => IsPlain(name) && name != "" && !IsSpace(name[0]) && !IsSpace(name[|name| - 1])
    case Generic(name, args) =>
      && IsPlain(name) && (name == "" || !IsSpace(name[0]))
      && forall i :: 0 <= i < |args| ==> WellFormed(args[i])
  }

  function Print(t: Type): string {
    match t
    case Leaf(name) => name
    case Generic(name, args) => name + "[" + PrintArgs(args) + "]"
  }

  function PrintArgs(args: seq<Type>): string {
    if args == [] then ""
    else if |args| == 1 then Print(args[0])
    else Print(args[0]) + ", " + PrintArgs(args[1..])
  }

  function PrintEach(args: seq<Type>): (r: seq<string>)
    ensures |r| == |args| && forall i :: 0 <= i < |args| ==> r[i] == Print(args[i])
  {
    seq(|args|, i requires 0 <= i < |args| => Print(args[i]))
  }

  // ----- Round trip

  lemma {:induction false} ScanPlain(s: string, rest: string, depth: int, current: string, done: seq<string>)
    requires IsPlain(s)
    ensures Scan(s + rest, depth, current, done) == Scan(rest, depth, current + s, done)
  {
    if s == "" {
      assert s + rest == rest && current + s == current;
    } else {
      assert (s + rest)[0] == s[0] && (s + rest)[1..] == s[1..] + rest;
      ScanPlain(s[1..], rest, depth, current + [s[0]], done);
      assert current + [s[0]] + s[1..] == current + s;
    }
  }

  lemma ScanChar(c: char, rest: string, depth: int, current: string, done: seq<string>)
    requires !(c == ',' && depth == 0)
    ensures Scan([c] + rest, depth, current, done) == Scan(rest, DepthAfter(c, depth), current + [c], done)
  {
  }

  lemma {:induction false} PrintedParts(name: string, inner: string, rest: string, current: string)
    ensures name + "[" + inner + "]" + rest == name + (['['] + (inner + ([']'] + rest)))
    ensures current + name + ['['] + inner + [']'] == current + (name + "[" + inner + "]")
  {
  }

  /** The scanner passes over a printed tree: it comes back to the depth it started at and does
      not split in between. */
  lemma {:induction false} ScanTree(t: Type, rest: string, depth: nat, current: string, done: seq<string>)
    requires WellFormed(t)
    ensures Scan(Print(t) + rest, depth, current, done) == Scan(rest, depth, current + Print(t), done)
    decreases t, 1
  {
    match t {
      case Leaf(name) => ScanPlain(name, rest, depth, current, done);
      case Generic(name, args) =>
        var inner := PrintArgs(args);
        var fromClose := [']'] + rest;
        var fromOpen := ['['] + (inner + fromClose);
        var prefix := current + name + ['['];
        PrintedParts(name, inner, rest, current);
        ScanPlain(name, fromOpen, depth, current, done);
        ScanChar('[', inner + fromClose, depth, current + name, done);
        ScanArgs(args, fromClose, depth + 1, prefix, done);
        ScanChar(']', rest, depth + 1, prefix + inner, done);
    }
  }

  lemma {:induction false} ScanArgs(args: seq<Type>, rest: string, depth: nat, current: string, done: seq<string>)
    requires depth > 0 && forall i :: 0 <= i < |args| ==> WellFormed(args[i])
    ensures Scan(PrintArgs(args) + rest, depth, current, done) == Scan(rest, depth, current + PrintArgs(args), done)
    decreases args, 0
  {
    if args == [] {
      assert "" + rest == rest && current + "" == current;
    } else if |args| == 1 {
      ScanTree(args[0], rest, depth, current, done);
    } else {
      var head, tail := Print(args[0]), PrintArgs(args[1..]);
      var fromTail := tail + rest;
      var fromSpace := [' '] + fromTail;
      var fromComma := [','] + fromSpace;
      var separated := current + head + [','] + [' '];
      assert PrintArgs(args) + rest == head + fromComma;
      ScanTree(args[0], fromComma, depth, current, done);
      ScanChar(',', fromSpace, depth, current + head, done);
      ScanChar(' ', fromTail, depth, current + head + [','], done);
      ScanArgs(args[1..], rest, depth, separated, done);
      assert separated + tail == current + PrintArgs(args);
    }
  }

  /** What the scanner collects: all arguments but the first keep a leading space. */
  function Pieces(lead: string, args: seq<Type>): (r: seq<string>)
    ensures |r| == |args|
    decreases args
  {
    if args == [] then [] else [lead + Print(args[0])] + Pieces(" ", args[1..])
  }

  lemma PiecesStep(lead: string, args: seq<Type>, done: seq<string>)
    requires args != []
    ensures done + [lead + Print(args[0])] + Pieces(" ", args[1..]) == done + Pieces(lead, args)
    ensures |args| == 1 ==> Pieces(lead, args) == [lead + Print(args[0])]
  {
    assert [lead + Print(args[0])] + [] == [lead + Print(args[0])];
  }

  lemma ScanFirst(args: seq<Type>, lead: string, done: seq<string>)
    requires |args| > 1 && WellFormed(args[0])
    ensures Scan(PrintArgs(args), 0, lead, done)
            == Scan(PrintArgs(args[1..]), 0, " ", done + [lead + Print(args[0])])
  {
    var head, tail := Print(args[0]), PrintArgs(args[1..]);
    assert PrintArgs(args) == head + ([','] + ([' '] + tail));
    ScanTree(args[0], [','] + ([' '] + tail), 0, lead, done);
    ScanComma([' '] + tail, lead + head, done);
    ScanChar(' ', tail, 0, "", done + [lead + head]);
    assert "" + [' '] == " ";
  }

  lemma ScanOnly(t: Type, lead: string, done: seq<string>)
    requires WellFormed(t)
    ensures Scan(Print(t), 0, lead, done) == done + [lead + Print(t)]
  {
    PrintedEnds(t);
    assert Print(t) + "" == Print(t);
    ScanTree(t, "", 0, lead, done);
  }

  /** At depth 0 the scanner splits between the arguments and nowhere else. */
  lemma {:induction false} ScanTop(args: seq<Type>, lead: string, done: seq<string>)
    requires args != [] && forall i :: 0 <= i < |args| ==> WellFormed(args[i])
    ensures Scan(PrintArgs(args), 0, lead, done) == done + Pieces(lead, args)
  {
    if |args| == 1 {
      ScanOnly(args[0], lead, done);
      PiecesStep(lead, args, done);
    } else {
      ScanFirst(args, lead, done);
      ScanTop(args[1..], " ", done + [lead + Print(args[0])]);
      PiecesStep(lead, args, done);
    }
  }

  lemma ScanComma(rest: string, current: string, done: seq<string>)
    ensures Scan([','] + rest, 0, current, done) == Scan(rest, 0, "", done + [current])
  {
  }

  lemma PrintedEnds(t: Type)
    requires WellFormed(t)
    ensures var p := Print(t); p != "" && !IsSpace(p[0]) && !IsSpace(p[|p| - 1])
  {
  }

  lemma StripPrinted(t: Type)
    requires WellFormed(t)
    ensures Strip(Print(t)) == Print(t) && Strip(" " + Print(t)) == Print(t)
  {
  }

  lemma {:induction false} StripPieces(lead: string, args: seq<Type>)
    requires lead == "" || lead == " "
    requires forall i :: 0 <= i < |args| ==> WellFormed(args[i])
    ensures StripAll(Pieces(lead, args)) == PrintEach(args)
    decreases args
  {
    if args == [] {
    } else {
      StripPrinted(args[0]);
      assert lead + Print(args[0]) == if lead == "" then Print(args[0]) else " " + Print(args[0]);
      StripPieces(" ", args[1..]);
      var r, rest := StripAll(Pieces(lead, args)), StripAll(Pieces(" ", args[1..]));
      assert forall i :: 0 < i < |args| ==> r[i] == rest[i - 1];
    }
  }

  /** Splitting the printed argument list gives back the printed arguments. */
  lemma SplitPrinted(args: seq<Type>)
    requires forall i :: 0 <= i < |args| ==> WellFormed(args[i])
    ensures SplitList("[" + PrintArgs(args) + "]") == Some(PrintEach(args))
  {
    var s := "[" + PrintArgs(args) + "]";
    assert s[1..|s| - 1] == PrintArgs(args);
    StripPieces("", args);
    if args == [] {
      assert Scan("", 0, "", []) == Pieces("", args);
    } else {
      ScanTop(args, "", []);
      assert [] + Pieces("", args) == Pieces("", args);
    }
  }

  lemma {:induction false} FindInPlain(s: string, c: char, rest: string)
    requires c !in s
    ensures Find(s + [c] + rest, c) == |s|
  {
    if s == "" {
    } else {
      FindInPlain(s[1..], c, rest);
      assert (s + [c] + rest)[1..] == s[1..] + [c] + rest;
    }
  }

  /** Parsing a printed generic type recovers its name and its printed arguments. */
  lemma RoundTrip(name: string, args: seq<Type>)
    requires IsPlain(name) && forall i :: 0 <= i < |args| ==> WellFormed(args[i])
    ensures ParametricType(Print(Generic(name, args))) == Parametric(name, PrintEach(args))
  {
    var s := Print(Generic(name, args));
    assert s == name + ['['] + (PrintArgs(args) + "]");
    FindInPlain(name, '[', PrintArgs(args) + "]");
    assert FindLast(s, ']') == |s|;
    assert s[|name|..|s|] == "[" + PrintArgs(args) + "]" && s[..|name|] == name;
    SplitPrinted(args);
  }

  lemma PlainIsSimple(s: string)
    requires IsPlain(s)
    ensures ParametricType(s) == Simple
  {
  }

  // ----- The predicates, read off the tree

  predicate TreeIsIntVariable(t: Type) {
    t.Generic? && t.name == "Variable" && |t.args| == 1 && t.args[0].Leaf? && EndsWith(t.args[0].name, BOUND_TO_INT)
  }

  predicate TreeIsLiteralInteger(numeric: NumericTest, t: Type) {
    t.Generic? && t.name == "typing_extensions.Literal" && |t.args| == 1
    && t.args[0].Leaf? && IsNumeric(numeric, t.args[0].name)
  }

  predicate TreeIsIntExpression(t: Type) {
    t.Generic? && t.name == "pyre_extensions.IntExpression" && |t.args| == 1
  }

  /** A precise tuple: `Tuple` of precise dimensions or `Broadcast` of two precise tuples. */
  predicate TreeIsTupleOf(numeric: NumericTest, name: string, args: seq<Type>)
    decreases args, 0
  {
    || ((name == "Tuple" || name == "typing.Tuple")
        && forall i :: 0 <= i < |args| ==> TreeIsDimension(numeric, args[i]))
    || (name == "Broadcast" && |args| == 2 && TreeIsTuple(numeric, args[0]) && TreeIsTuple(numeric, args[1]))
  }

  predicate TreeIsTuple(numeric: NumericTest, t: Type)
    decreases t, 1
  {
    t.Generic? && TreeIsTupleOf(numeric, t.name, t.args)
  }

  /** An unpacked name, or an unpacked precise tuple. */
  predicate TreeIsUnpacked(numeric: NumericTest, t: Type)
    decreases t, 1
  {
    t.name != "" && t.name[0] == '*' && (t.Leaf? || TreeIsTupleOf(numeric, t.name[1..], t.args))
  }

  predicate TreeIsDimension(numeric: NumericTest, t: Type)
    decreases t, 2
  {
    TreeIsLiteralInteger(numeric, t) || TreeIsIntVariable(t) || TreeIsUnpacked(numeric, t) || TreeIsIntExpression(t)
  }

  /** A printed argument is numeric or ends with the bound only if it is a leaf. */
  lemma ArgumentTests(numeric: NumericTest, t: Type)
    requires WellFormed(t)
    ensures EndsWith(Print(t), BOUND_TO_INT) <==> t.Leaf? && EndsWith(t.name, BOUND_TO_INT)
    ensures IsNumeric(numeric, Print(t)) <==> t.Leaf? && IsNumeric(numeric, t.name)
  {
    var p := Print(t);
    if t.Generic? {
      assert p[|p| - 1] == ']';
      assert |p| >= |BOUND_TO_INT| ==> p[|p| - |BOUND_TO_INT|..][|BOUND_TO_INT| - 1] == ']';
    }
  }

  lemma SimpleTestsAgree(numeric: NumericTest, t: Type)
    requires WellFormed(t)
    ensures IsLiteralInteger(numeric, Print(t)) == Some(TreeIsLiteralInteger(numeric, t))
    ensures IsIntVariable(Print(t)) == Some(TreeIsIntVariable(t))
    ensures IsIntExpression(Print(t)) == Some(TreeIsIntExpression(t))
  {
    match t {
      case Leaf(name) => PlainIsSimple(name);
      case Generic(name, args) =>
        RoundTrip(name, args);
        if |args| == 1 {
          ArgumentTests(numeric, args[0]);
        }
    }
  }

  /** On every well-formed tree the string predicate does not raise and agrees with the tree. */
  lemma {:induction false} TupleOfAgrees(numeric: NumericTest, name: string, args: seq<Type>)
    requires IsPlain(name) && forall i :: 0 <= i < |args| ==> WellFormed(args[i])
    ensures IsPreciseTuple(numeric, Print(Generic(name, args))) == Some(TreeIsTupleOf(numeric, name, args))
    decreases args, 1
  {
    RoundTrip(name, args);
    var s, ps := Print(Generic(name, args)), PrintEach(args);
    ParametersAreShorter(s);
    if name == "Tuple" || name == "typing.Tuple" {
      PrintedDimensions(numeric, args, |s|);
    } else if name == "Broadcast" && |args| == 2 {
      TupleAgrees(numeric, args[0]);
      TupleAgrees(numeric, args[1]);
      TwoTuples(numeric, ps, |s|);
    }
  }

  lemma TwoTuples(numeric: NumericTest, ps: seq<string>, bound: nat)
    requires |ps| == 2 && forall x :: x in ps ==> |x| < bound
    ensures AllTuples(numeric, ps, bound)
            == And(IsPreciseTuple(numeric, ps[0]), And(IsPreciseTuple(numeric, ps[1]), Some(true)))
  {
    var tail := ps[1..];
    assert AllTuples(numeric, tail, bound) == And(IsPreciseTuple(numeric, ps[1]), AllTuples(numeric, tail[1..], bound));
    assert tail[1..] == [];
  }

  ghost predicate AllTreeDimensions(numeric: NumericTest, args: seq<Type>) {
    forall i :: 0 <= i < |args| ==> TreeIsDimension(numeric, args[i])
  }

  lemma FirstAndRest(numeric: NumericTest, args: seq<Type>)
    requires args != []
    ensures AllTreeDimensions(numeric, args) <==>
              TreeIsDimension(numeric, args[0]) && AllTreeDimensions(numeric, args[1..])
  {
  }

  lemma {:induction false} AllDimensionsAgree(numeric: NumericTest, args: seq<Type>, ps: seq<string>, bound: nat)
    requires |ps| == |args| && forall x :: x in ps ==> |x| < bound
    requires forall i :: 0 <= i < |args| ==>
               IsPreciseTensorDimension(numeric, ps[i]) == Some(TreeIsDimension(numeric, args[i]))
    ensures AllDimensions(numeric, ps, bound) == Some(AllTreeDimensions(numeric, args))
  {
    if args == [] {
    } else {
      AllDimensionsAgree(numeric, args[1..], ps[1..], bound);
      FirstAndRest(numeric, args);
    }
  }

  lemma {:induction false} PrintedDimensions(numeric: NumericTest, args: seq<Type>, bound: nat)
    requires forall i :: 0 <= i < |args| ==> WellFormed(args[i])
    requires forall x :: x in PrintEach(args) ==> |x| < bound
    ensures AllDimensions(numeric, PrintEach(args), bound) == Some(AllTreeDimensions(numeric, args))
    decreases args, 0
  {
    var ps := PrintEach(args);
    forall i | 0 <= i < |args|
      ensures IsPreciseTensorDimension(numeric, ps[i]) == Some(TreeIsDimension(numeric, args[i]))
    {
      DimensionAgrees(numeric, args[i]);
    }
    AllDimensionsAgree(numeric, args, ps, bound);
  }

  lemma {:induction false} TupleAgrees(numeric: NumericTest, t: Type)
    requires WellFormed(t)
    ensures IsPreciseTuple(numeric, Print(t)) == Some(TreeIsTuple(numeric, t))
    decreases t, 1
  {
    match t {
      case Leaf(name) => PlainIsSimple(name);
      case Generic(name, args) => TupleOfAgrees(numeric, name, args);
    }
  }

  lemma {:induction false} UnpackedAgrees(numeric: NumericTest, t: Type)
    requires WellFormed(t)
    ensures IsPreciseUnpacked(numeric, Print(t)) == Some(TreeIsUnpacked(numeric, t))
    decreases t, 1
  {
    match t {
      case Leaf(name) => PlainIsSimple(name[1..]);
      case Generic(name, args) =>
        if name != "" {
          assert Print(t)[1..] == Print(Generic(name[1..], args));
          RoundTrip(name[1..], args);
          TupleOfAgrees(numeric, name[1..], args);
        }
    }
  }

  lemma {:induction false} DimensionAgrees(numeric: NumericTest, t: Type)
    requires WellFormed(t)
    ensures IsPreciseTensorDimension(numeric, Print(t)) == Some(TreeIsDimension(numeric, t))
    decreases t, 2
  {
    SimpleTestsAgree(numeric, t);
    UnpackedAgrees(numeric, t);
  }

  /** A tensor annotation is filed by its dimensions, read off the tree. */
  lemma TensorAgrees(numeric: NumericTest, args: seq<Type>)
    requires forall i :: 0 <= i < |args| ==> WellFormed(args[i])
    ensures Classify(numeric, Print(Generic("torch.Tensor", args)))
            == if args == [] || AllTreeDimensions(numeric, args[1..]) then Precise else Imprecise
  {
    RoundTrip("torch.Tensor", args);
    var s, ps := Print(Generic("torch.Tensor", args)), PrintEach(args);
    if args != [] {
      ParametersAreShorter(s);
      assert ps[1..] == PrintEach(args[1..]);
      PrintedDimensions(numeric, args[1..], |s|);
    }
  }

  /** Annotations that are not tensors are not filed at all. */
  lemma {:induction false} OthersAreSkipped(numeric: NumericTest, t: Type)
    requires WellFormed(t) && !(t.Generic? && t.name == "torch.Tensor")
    ensures Classify(numeric, Print(t)) == NotTensor
  {
    match t {
      case Leaf(name) => PlainIsSimple(name);
      case Generic(name, args) => RoundTrip(name, args);
    }
  }

  // ----- The predicates on strings, rule by rule

  const LITERAL := "typing_extensions.Literal"
  const INT_EXPRESSION := "pyre_extensions.IntExpression"

  predicate IsTuple(name: string) {
    name == "Tuple" || name == "typing.Tuple"
  }

  ghost predicate AreDimensions(numeric: NumericTest, args: seq<Type>) {
    forall i :: 0 <= i < |args| ==> IsPreciseTensorDimension(numeric, Print(args[i])) == Some(true)
  }

  ghost predicate AreTwoTuples(numeric: NumericTest, args: seq<Type>) {
    && |args| == 2
    && IsPreciseTuple(numeric, Print(args[0])) == Some(true) && IsPreciseTuple(numeric, Print(args[1])) == Some(true)
  }

  /** Precise tuples: a `Tuple` of precise dimensions or a `Broadcast` of two precise tuples. */
  lemma {:induction false} TupleRules(numeric: NumericTest, name: string, args: seq<Type>)
    requires WellFormed(Generic(name, args))
    ensures IsPreciseTuple(numeric, Print(Generic(name, args)))
            == Some(if IsTuple(name) then AreDimensions(numeric, args)
                    else name == "Broadcast" && AreTwoTuples(numeric, args))
  {
    TupleAgrees(numeric, Generic(name, args));
    ArgumentsAgree(numeric, args);
  }

  /** Precise dimensions: an integer literal, an integer variable, any integer expression or an
      unpacked precise tuple, and nothing else. */
  lemma {:induction false} DimensionRules(numeric: NumericTest, name: string, args: seq<Type>)
    requires WellFormed(Generic(name, args))
    ensures IsPreciseTensorDimension(numeric, Print(Generic(name, args)))
            == Some(if name == LITERAL then |args| == 1 && args[0].Leaf? && forall c :: c in args[0].name ==> numeric(c)
                    else if name == "Variable" then
                      |args| == 1 && args[0].Leaf? && EndsWith(args[0].name, "(bound to int)")
                    else if name == INT_EXPRESSION then |args| == 1
                    else name != "" && name[0] == '*'
                         && IsPreciseTuple(numeric, Print(Generic(name[1..], args))) == Some(true))
  {
    var t := Generic(name, args);
    DimensionAgrees(numeric, t);
    if name == LITERAL {
      assert TreeIsDimension(numeric, t) == TreeIsLiteralInteger(numeric, t);
      if |args| == 1 && args[0].Leaf? {
        var digits := args[0].name;
        assert forall i :: 0 <= i < |digits| ==> digits[i] in digits;
      }
    } else if name == "Variable" {
      assert TreeIsDimension(numeric, t) == TreeIsIntVariable(t);
    } else if name == INT_EXPRESSION {
      assert TreeIsDimension(numeric, t) == TreeIsIntExpression(t);
    } else {
      assert TreeIsDimension(numeric, t) == TreeIsUnpacked(numeric, t);
      if name != "" && name[0] == '*' {
        TupleOfAgrees(numeric, name[1..], args);
      }
    }
  }

  /** Of plain names only unpacked ones are precise dimensions, and none is a precise tuple. */
  lemma LeafRules(numeric: NumericTest, name: string)
    requires WellFormed(Leaf(name))
    ensures IsPreciseTensorDimension(numeric, name) == Some(name[0] == '*')
    ensures IsPreciseTuple(numeric, name) == Some(false)
  {
    DimensionAgrees(numeric, Leaf(name));
    TupleAgrees(numeric, Leaf(name));
  }

  lemma {:induction false} ArgumentsAgree(numeric: NumericTest, args: seq<Type>)
    requires forall i :: 0 <= i < |args| ==> WellFormed(args[i])
    ensures forall i :: 0 <= i < |args| ==>
              && IsPreciseTensorDimension(numeric, Print(args[i])) == Some(TreeIsDimension(numeric, args[i]))
              && IsPreciseTuple(numeric, Print(args[i])) == Some(TreeIsTuple(numeric, args[i]))
  {
    forall i | 0 <= i < |args|
      ensures IsPreciseTensorDimension(numeric, Print(args[i])) == Some(TreeIsDimension(numeric, args[i]))
      ensures IsPreciseTuple(numeric, Print(args[i])) == Some(TreeIsTuple(numeric, args[i]))
    {
      DimensionAgrees(numeric, args[i]);
      TupleAgrees(numeric, args[i]);
    }
  }
}
