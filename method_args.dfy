/**
 * The command-line parsers of MethodArgs.cs.  Each Parse walks the argument
 * array with an index `a`; a flag and its value are consumed together because
 * the flag test `c == "-x" && ++a < len` bumps the index.  When the flag is the
 * last argument the bump still happens, the test fails, and control falls into
 * the positional branch with `a == len`.
 *
 * Each parser is a loop method proved equal to a recursive function over the
 * arguments still to be read; the lemmas state the parsers' behaviour on that
 * function.  The object `o` being filled in is a record value that the loop
 * reassigns field by field.  `Null` is Parse returning null, `Threw` an
 * exception escaping from it.
 */
module MethodArgs {
  import opened Wrappers
  import opened Helpers

  /** double.TryParse and int.TryParse. */
  datatype Parsers = Parsers(toReal: Handler<real>, toInt: Handler<int>)

  datatype Parsed<T> = Parsed(value: T) | Null | Threw(error: Exception)

  /** The arguments from index `a` on; empty once `a` has passed the end. */
  function Rest(args: seq<string>, a: nat): seq<string> {
    if a <= |args| then args[a..] else []
  }

  /** No argument is one of `flags`. */
  predicate NoneOf(args: seq<string>, flags: set<string>) {
    forall i :: 0 <= i < |args| ==> args[i] !in flags
  }

  /** The first and second arguments, when present. */
  function Nth(args: seq<string>, i: nat): Option<string> {
    if i < |args| then Some(args[i]) else None
  }

  // ---------------------------------------------------------------- NlMeans

  datatype NlMeansArgs = NlMeansArgs(
    src: Option<string>, dst: Option<string>, h: real, templateWindowSize: int, searchWindowSize: int)

  const NlMeansDefault := NlMeansArgs(None, None, 0.0, 0, 0)

  predicate IsNlMeansFlag(c: string) {
    c == "-h" || c == "-t" || c == "-s"
  }

  /** The positional branch: the first free slot of src, dst takes the argument. */
  function Place(o: NlMeansArgs, x: string): (r: NlMeansArgs)
    ensures o.src.None? ==> r == o.(src := Some(x))
    ensures o.src.Some? && o.dst.None? ==> r == o.(dst := Some(x))
    ensures o.src.Some? && o.dst.Some? ==> r == o
  {
    if o.src.None? then o.(src := Some(x))
    else if o.dst.None? then o.(dst := Some(x))
    else o
  }

  /** What NlMeansArgs.Parse does with the arguments `rest` still to read, `o` filled in so far. */
  function NlMeansFrom(rest: seq<string>, o: NlMeansArgs, p: Parsers): Parsed<NlMeansArgs>
    decreases |rest|
  {
    if rest == [] then Parsed(o)
    else
      var c := rest[0];
      if IsNlMeansFlag(c) && |rest| > 1 then
        if c == "-h" then
          var (ok, v) := TryParse(rest[1], p.toReal);
          if !ok then Null else NlMeansFrom(rest[2..], o.(h := v), p)
        else if c == "-t" then
          var (ok, v) := TryParse(rest[1], p.toInt);
          if !ok then Null else NlMeansFrom(rest[2..], o.(templateWindowSize := v), p)
        else
          var (ok, v) := TryParse(rest[1], p.toInt);
          if !ok then Null else NlMeansFrom(rest[2..], o.(searchWindowSize := v), p)
      else if IsNlMeansFlag(c) then
        // a trailing flag: the positional branch reads args[len]
        if o.src.None? || o.dst.None? then Threw(IndexOutOfRange) else Parsed(o)
      else NlMeansFrom(rest[1..], Place(o, c), p)
  }

  /** NlMeansArgs.Parse. */
  method ParseNlMeans(args: seq<string>, p: Parsers) returns (r: Parsed<NlMeansArgs>)
    ensures r == NlMeansFrom(args, NlMeansDefault, p)
  {
    var o := NlMeansDefault;
    var len := |args|;
    var a := 0;
    while a < len
      invariant a <= len + 1
      invariant NlMeansFrom(Rest(args, a), o, p) == NlMeansFrom(args, NlMeansDefault, p)
      decreases len + 1 - a
    {
      var c := args[a];
      assert Rest(args, a)[0] == c;
      var flag := IsNlMeansFlag(c);
      if flag {
        a := a + 1;
      }
      if flag && a < len {
        assert Rest(args, a - 1)[1] == args[a] && Rest(args, a - 1)[2..] == Rest(args, a + 1);
        if c == "-h" {
          var (ok, v) := TryParse(args[a], p.toReal);
          if !ok { return Null; }
          o := o.(h := v);
        } else if c == "-t" {
          var (ok, v) := TryParse(args[a], p.toInt);
          if !ok { return Null; }
          o := o.(templateWindowSize := v);
        } else {
          var (ok, v) := TryParse(args[a], p.toInt);
          if !ok { return Null; }
          o := o.(searchWindowSize := v);
        }
      } else {
        if !flag {
          assert Rest(args, a)[1..] == Rest(args, a + 1);
        }
        if o.src.None? {
          if a >= len { return Threw(IndexOutOfRange); }
          o := o.(src := Some(args[a]));
        } else if o.dst.None? {
          if a >= len { return Threw(IndexOutOfRange); }
          o := o.(dst := Some(args[a]));
        }
      }
      a := a + 1;
    }
    assert Rest(args, a) == [];
    r := Parsed(o);
  }

  /** With no flags among the arguments and both slots taken, the parse changes nothing. */
  lemma {:induction false} NlMeansSlotsFull(args: seq<string>, o: NlMeansArgs, p: Parsers)
    requires NoneOf(args, {"-h", "-t", "-s"}) && o.src.Some? && o.dst.Some?
    ensures NlMeansFrom(args, o, p) == Parsed(o)
    decreases |args|
  {
    if args != [] {
      assert args[0] !in {"-h", "-t", "-s"};
      NlMeansSlotsFull(args[1..], o, p);
    }
  }

  /** The first two non-flag arguments become src and dst; later ones are ignored. */
  lemma NlMeansPositional(args: seq<string>, p: Parsers)
    requires NoneOf(args, {"-h", "-t", "-s"})
    ensures NlMeansFrom(args, NlMeansDefault, p) ==
            Parsed(NlMeansDefault.(src := Nth(args, 0), dst := Nth(args, 1)))
  {
    if |args| >= 2 {
      assert args[0] !in {"-h", "-t", "-s"} && args[1] !in {"-h", "-t", "-s"};
      assert args[1..][1..] == args[2..];
      NlMeansSlotsFull(args[2..], NlMeansDefault.(src := Nth(args, 0), dst := Nth(args, 1)), p);
    } else if |args| == 1 {
      assert args[0] !in {"-h", "-t", "-s"};
    }
  }

  /** A field whose flag does not occur keeps the value it had: h, templateWindowSize, searchWindowSize. */
  lemma {:induction false} NlMeansUnflaggedKept(rest: seq<string>, o: NlMeansArgs, p: Parsers)
    ensures NlMeansFrom(rest, o, p).Parsed? ==>
      var r := NlMeansFrom(rest, o, p).value;
      && ("-h" !in rest ==> r.h == o.h)
      && ("-t" !in rest ==> r.templateWindowSize == o.templateWindowSize)
      && ("-s" !in rest ==> r.searchWindowSize == o.searchWindowSize)
    decreases |rest|
  {
    if rest != [] {
      var c := rest[0];
      if IsNlMeansFlag(c) && |rest| > 1 {
        assert forall x :: x in rest[2..] ==> x in rest;
        if c == "-h" {
          NlMeansUnflaggedKept(rest[2..], o.(h := p.toReal(rest[1]).1), p);
        } else if c == "-t" {
          NlMeansUnflaggedKept(rest[2..], o.(templateWindowSize := p.toInt(rest[1]).1), p);
        } else {
          NlMeansUnflaggedKept(rest[2..], o.(searchWindowSize := p.toInt(rest[1]).1), p);
        }
      } else if !IsNlMeansFlag(c) {
        assert forall x :: x in rest[1..] ==> x in rest;
        NlMeansUnflaggedKept(rest[1..], Place(o, c), p);
      }
    }
  }

  /** Options not supplied keep their zero defaults. */
  lemma NlMeansDefaults(args: seq<string>, p: Parsers)
    ensures NlMeansFrom(args, NlMeansDefault, p).Parsed? ==>
      var r := NlMeansFrom(args, NlMeansDefault, p).value;
      && ("-h" !in args ==> r.h == 0.0)
      && ("-t" !in args ==> r.templateWindowSize == 0)
      && ("-s" !in args ==> r.searchWindowSize == 0)
  {
    NlMeansUnflaggedKept(args, NlMeansDefault, p);
  }

  /**
   * The last occurrence of a flag wins: the value after a -h, -t or -s that no
   * later occurrence of the same flag follows is the result's h, templateWindowSize
   * or searchWindowSize.
   */
  lemma NlMeansLastWins(flag: string, v: string, rest: seq<string>, o: NlMeansArgs, p: Parsers)
    requires IsNlMeansFlag(flag) && flag !in rest
    ensures NlMeansFrom([flag, v] + rest, o, p).Parsed? ==>
      var r := NlMeansFrom([flag, v] + rest, o, p).value;
      && (flag == "-h" ==> r.h == p.toReal(v).1)
      && (flag == "-t" ==> r.templateWindowSize == p.toInt(v).1)
      && (flag == "-s" ==> r.searchWindowSize == p.toInt(v).1)
  {
    assert ([flag, v] + rest)[2..] == rest;
    if flag == "-h" {
      NlMeansUnflaggedKept(rest, o.(h := p.toReal(v).1), p);
    } else if flag == "-t" {
      NlMeansUnflaggedKept(rest, o.(templateWindowSize := p.toInt(v).1), p);
    } else {
      NlMeansUnflaggedKept(rest, o.(searchWindowSize := p.toInt(v).1), p);
    }
  }

  /** An option value that does not parse makes Parse return null. */
  lemma NlMeansUnparsable(flag: string, v: string, rest: seq<string>, o: NlMeansArgs, p: Parsers)
    requires (flag == "-h" && !p.toReal(v).0) || ((flag == "-t" || flag == "-s") && !p.toInt(v).0)
    ensures NlMeansFrom([flag, v] + rest, o, p) == Null
  {
  }

  /** A flag as the last argument reads past the end unless src and dst are both set. */
  lemma NlMeansTrailingFlag(flag: string, o: NlMeansArgs, p: Parsers)
    requires IsNlMeansFlag(flag)
    ensures NlMeansFrom([flag], o, p) == if o.src.None? || o.dst.None? then Threw(IndexOutOfRange) else Parsed(o)
  {
  }

  // -------------------------------------------------------- NlMeansColored

  datatype NlMeansColoredArgs = NlMeansColoredArgs(
    src: Option<string>, dst: Option<string>, h: real, hColor: real, templateWindowSize: int, searchWindowSize: int)

  const NlMeansColoredDefault := NlMeansColoredArgs(None, None, 0.0, 0.0, 0, 0)

  function PlaceColored(o: NlMeansColoredArgs, x: string): NlMeansColoredArgs {
    if o.src.None? then o.(src := Some(x))
    else if o.dst.None? then o.(dst := Some(x))
    else o
  }

  /** What NlMeansColoredArgs.Parse does with the arguments `rest` still to read.  There is no -c branch. */
  function NlMeansColoredFrom(rest: seq<string>, o: NlMeansColoredArgs, p: Parsers): Parsed<NlMeansColoredArgs>
    decreases |rest|
  {
    if rest == [] then Parsed(o)
    else
      var c := rest[0];
      if IsNlMeansFlag(c) && |rest| > 1 then
        if c == "-h" then
          var (ok, v) := TryParse(rest[1], p.toReal);
          if !ok then Null else NlMeansColoredFrom(rest[2..], o.(h := v), p)
        else if c == "-t" then
          var (ok, v) := TryParse(rest[1], p.toInt);
          if !ok then Null else NlMeansColoredFrom(rest[2..], o.(templateWindowSize := v), p)
        else
          var (ok, v) := TryParse(rest[1], p.toInt);
          if !ok then Null else NlMeansColoredFrom(rest[2..], o.(searchWindowSize := v), p)
      else if IsNlMeansFlag(c) then
        if o.src.None? || o.dst.None? then Threw(IndexOutOfRange) else Parsed(o)
      else NlMeansColoredFrom(rest[1..], PlaceColored(o, c), p)
  }

  /** NlMeansColoredArgs.Parse. */
  method ParseNlMeansColored(args: seq<string>, p: Parsers) returns (r: Parsed<NlMeansColoredArgs>)
    ensures r == NlMeansColoredFrom(args, NlMeansColoredDefault, p)
  {
    var o := NlMeansColoredDefault;
    var len := |args|;
    var a := 0;
    while a < len
      invariant a <= len + 1
      invariant NlMeansColoredFrom(Rest(args, a), o, p) == NlMeansColoredFrom(args, NlMeansColoredDefault, p)
      decreases len + 1 - a
    {
      var c := args[a];
      assert Rest(args, a)[0] == c;
      var flag := IsNlMeansFlag(c);
      if flag {
        a := a + 1;
      }
      if flag && a < len {
        assert Rest(args, a - 1)[1] == args[a] && Rest(args, a - 1)[2..] == Rest(args, a + 1);
        if c == "-h" {
          var (ok, v) := TryParse(args[a], p.toReal);
          if !ok { return Null; }
          o := o.(h := v);
        } else if c == "-t" {
          var (ok, v) := TryParse(args[a], p.toInt);
          if !ok { return Null; }
          o := o.(templateWindowSize := v);
        } else {
          var (ok, v) := TryParse(args[a], p.toInt);
          if !ok { return Null; }
          o := o.(searchWindowSize := v);
        }
      } else {
        if !flag {
          assert Rest(args, a)[1..] == Rest(args, a + 1);
        }
        if o.src.None? {
          if a >= len { return Threw(IndexOutOfRange); }
          o := o.(src := Some(args[a]));
        } else if o.dst.None? {
          if a >= len { return Threw(IndexOutOfRange); }
          o := o.(dst := Some(args[a]));
        }
      }
      a := a + 1;
    }
    assert Rest(args, a) == [];
    r := Parsed(o);
  }

  function Colored(o: NlMeansArgs, hColor: real): NlMeansColoredArgs {
    NlMeansColoredArgs(o.src, o.dst, o.h, hColor, o.templateWindowSize, o.searchWindowSize)
  }

  function ColoredResult(r: Parsed<NlMeansArgs>, hColor: real): Parsed<NlMeansColoredArgs> {
    match r
    case Parsed(o) => Parsed(Colored(o, hColor))
    case Null => Null
    case Threw(e) => Threw(e)
  }

  /**
   * The colored parser reads exactly what the plain one reads and never touches
   * hColor: `-c` is taken as a positional argument like any other non-flag.
   */
  lemma {:induction false} ColoredAgrees(rest: seq<string>, o: NlMeansArgs, hColor: real, p: Parsers)
    ensures NlMeansColoredFrom(rest, Colored(o, hColor), p) == ColoredResult(NlMeansFrom(rest, o, p), hColor)
    decreases |rest|
  {
    if rest != [] {
      var c := rest[0];
      if IsNlMeansFlag(c) && |rest| > 1 {
        if c == "-h" {
          ColoredAgrees(rest[2..], o.(h := p.toReal(rest[1]).1), hColor, p);
        } else if c == "-t" {
          ColoredAgrees(rest[2..], o.(templateWindowSize := p.toInt(rest[1]).1), hColor, p);
        } else {
          ColoredAgrees(rest[2..], o.(searchWindowSize := p.toInt(rest[1]).1), hColor, p);
        }
      } else if !IsNlMeansFlag(c) {
        assert PlaceColored(Colored(o, hColor), c) == Colored(Place(o, c), hColor);
        ColoredAgrees(rest[1..], Place(o, c), hColor, p);
      }
    }
  }

  /** hColor is 0 in every colored parse, and `-c v` fills the positional slots. */
  lemma ColoredHColorZero(args: seq<string>, v: string, p: Parsers)
    ensures NlMeansColoredFrom(args, NlMeansColoredDefault, p).Parsed? ==>
            NlMeansColoredFrom(args, NlMeansColoredDefault, p).value.hColor == 0.0
    ensures v !in {"-h", "-t", "-s"} ==>
            NlMeansColoredFrom(["-c", v], NlMeansColoredDefault, p) ==
            Parsed(NlMeansColoredDefault.(src := Some("-c"), dst := Some(v)))
  {
    assert Colored(NlMeansDefault, 0.0) == NlMeansColoredDefault;
    ColoredAgrees(args, NlMeansDefault, 0.0, p);
    if v !in {"-h", "-t", "-s"} {
      ColoredAgrees(["-c", v], NlMeansDefault, 0.0, p);
      NlMeansPositional(["-c", v], p);
    }
  }

  // -------------------------------------------------------------------- Dct

  datatype DctArgs = DctArgs(src: Option<string>, dst: Option<string>, sigma: Option<real>, psize: int)

  const DctDefault := DctArgs(None, None, None, 0)

  /** What DctArgs.Parse does with the arguments `rest` still to read: only -s and -p are looked at. */
  function DctFrom(rest: seq<string>, o: DctArgs, p: Parsers): Parsed<DctArgs>
    decreases |rest|
  {
    if rest == [] then Parsed(o)
    else
      var c := rest[0];
      if c == "-s" && |rest| > 1 then
        var (ok, v) := TryParseNullable(rest[1], p.toReal);
        if !ok then Null else DctFrom(rest[2..], o.(sigma := v), p)
      else if c == "-p" && |rest| > 1 then
        var (ok, v) := TryParse(rest[1], p.toInt);
        if !ok then Null else DctFrom(rest[2..], o.(psize := v), p)
      else DctFrom(rest[1..], o, p)
  }

  /** DctArgs.Parse. */
  method ParseDct(args: seq<string>, p: Parsers) returns (r: Parsed<DctArgs>)
    ensures r == DctFrom(args, DctDefault, p)
  {
    var o := DctDefault;
    var len := |args|;
    var a := 0;
    while a < len
      invariant a <= len + 1
      invariant DctFrom(Rest(args, a), o, p) == DctFrom(args, DctDefault, p)
      decreases len + 1 - a
    {
      var c := args[a];
      assert Rest(args, a)[0] == c;
      var flag := c == "-s" || c == "-p";
      if flag {
        a := a + 1;
      }
      if flag && a < len {
        assert Rest(args, a - 1)[1] == args[a] && Rest(args, a - 1)[2..] == Rest(args, a + 1);
        if c == "-s" {
          var (ok, v) := TryParseNullable(args[a], p.toReal);
          if !ok { return Null; }
          o := o.(sigma := v);
        } else {
          var (ok, v) := TryParse(args[a], p.toInt);
          if !ok { return Null; }
          o := o.(psize := v);
        }
      } else if !flag {
        assert Rest(args, a)[1..] == Rest(args, a + 1);
      }
      a := a + 1;
    }
    assert Rest(args, a) == [];
    r := Parsed(o);
  }

  /**
   * DctArgs.Parse never throws and never assigns src or dst; sigma stays null
   * unless a -s is given; psize keeps its value unless a -p is given.
   */
  lemma {:induction false} DctShape(rest: seq<string>, o: DctArgs, p: Parsers)
    ensures !DctFrom(rest, o, p).Threw?
    ensures DctFrom(rest, o, p).Parsed? ==>
      var r := DctFrom(rest, o, p).value;
      && r.src == o.src && r.dst == o.dst
      && ("-s" !in rest ==> r.sigma == o.sigma)
      && ("-p" !in rest ==> r.psize == o.psize)
    decreases |rest|
  {
    if rest != [] {
      var c := rest[0];
      assert forall x :: x in rest[1..] ==> x in rest;
      if c == "-s" && |rest| > 1 {
        assert forall x :: x in rest[2..] ==> x in rest;
        DctShape(rest[2..], o.(sigma := TryParseNullable(rest[1], p.toReal).1), p);
      } else if c == "-p" && |rest| > 1 {
        assert forall x :: x in rest[2..] ==> x in rest;
        DctShape(rest[2..], o.(psize := p.toInt(rest[1]).1), p);
      } else {
        DctShape(rest[1..], o, p);
      }
    }
  }

  /**
   * The last -s or -p wins: after a parsed -s v that no later -s follows, sigma
   * holds v's value; after a -p v that no later -p follows, psize does.
   */
  lemma DctLastWins(flag: string, v: string, rest: seq<string>, o: DctArgs, p: Parsers)
    requires (flag == "-s" || flag == "-p") && flag !in rest
    ensures DctFrom([flag, v] + rest, o, p).Parsed? ==>
      var r := DctFrom([flag, v] + rest, o, p).value;
      && (flag == "-s" ==> r.sigma == Some(p.toReal(v).1))
      && (flag == "-p" ==> r.psize == p.toInt(v).1)
  {
    assert ([flag, v] + rest)[2..] == rest;
    if flag == "-s" {
      DctShape(rest, o.(sigma := TryParseNullable(v, p.toReal).1), p);
    } else {
      DctShape(rest, o.(psize := p.toInt(v).1), p);
    }
  }

  /** Any argument that is not -s or -p, positional or trailing, is skipped. */
  lemma DctIgnores(c: string, rest: seq<string>, o: DctArgs, p: Parsers)
    requires (c != "-s" && c != "-p") || rest == []
    ensures DctFrom([c] + rest, o, p) == DctFrom(rest, o, p)
  {
    assert ([c] + rest)[1..] == rest;
  }

  // ------------------------------------------------------------------- TVL1

  datatype TVL1Args = TVL1Args(srcList: seq<string>, dst: Option<string>, lambda: Option<real>, niters: Option<int>)

  const TVL1Default := TVL1Args([], None, None, None)

  predicate IsTVL1Flag(c: string) {
    c == "-o" || c == "-l" || c == "-n"
  }

  /**
   * What TVL1Args.Parse does with the arguments `rest` still to read; `o.srcList`
   * plays the part of the local fileList, which Parse stores in srcList at the end.
   */
  function TVL1From(rest: seq<string>, o: TVL1Args, p: Parsers): Parsed<TVL1Args>
    decreases |rest|
  {
    if rest == [] then Parsed(o)
    else
      var c := rest[0];
      if IsTVL1Flag(c) && |rest| > 1 then
        if c == "-o" then TVL1From(rest[2..], o.(dst := Some(rest[1])), p)
        else if c == "-l" then
          var (ok, v) := TryParseNullable(rest[1], p.toReal);
          if !ok then Null else TVL1From(rest[2..], o.(lambda := v), p)
        else
          var (ok, v) := TryParseNullable(rest[1], p.toInt);
          if !ok then Null else TVL1From(rest[2..], o.(niters := v), p)
      else if IsTVL1Flag(c) then Threw(IndexOutOfRange)   // fileList.Add(args[len])
      else TVL1From(rest[1..], o.(srcList := o.srcList + [c]), p)
  }

  /** TVL1Args.Parse. */
  method ParseTVL1(args: seq<string>, p: Parsers) returns (r: Parsed<TVL1Args>)
    ensures r == TVL1From(args, TVL1Default, p)
  {
    var o := TVL1Default;
    var fileList: seq<string> := [];
    var len := |args|;
    var a := 0;
    while a < len
      invariant a <= len
      invariant TVL1From(Rest(args, a), o.(srcList := fileList), p) == TVL1From(args, TVL1Default, p)
      decreases len - a
    {
      var c := args[a];
      assert Rest(args, a)[0] == c;
      var flag := IsTVL1Flag(c);
      if flag {
        a := a + 1;
      }
      if flag && a < len {
        assert Rest(args, a - 1)[1] == args[a] && Rest(args, a - 1)[2..] == Rest(args, a + 1);
        if c == "-o" {
          o := o.(dst := Some(args[a]));
        } else if c == "-l" {
          var (ok, v) := TryParseNullable(args[a], p.toReal);
          if !ok { return Null; }
          o := o.(lambda := v);
        } else {
          var (ok, v) := TryParseNullable(args[a], p.toInt);
          if !ok { return Null; }
          o := o.(niters := v);
        }
      } else {
        if a >= len { return Threw(IndexOutOfRange); }
        assert Rest(args, a)[1..] == Rest(args, a + 1);
        fileList := fileList + [args[a]];
      }
      a := a + 1;
    }
    assert Rest(args, a) == [];
    o := o.(srcList := fileList);
    r := Parsed(o);
  }

  /** With no flags, every argument goes to srcList, in order. */
  lemma {:induction false} TVL1AllSources(rest: seq<string>, o: TVL1Args, p: Parsers)
    requires NoneOf(rest, {"-o", "-l", "-n"})
    ensures TVL1From(rest, o, p) == Parsed(o.(srcList := o.srcList + rest))
    decreases |rest|
  {
    if rest != [] {
      assert rest[0] !in {"-o", "-l", "-n"};
      var o' := o.(srcList := o.srcList + [rest[0]]);
      TVL1AllSources(rest[1..], o', p);
      assert o'.srcList + rest[1..] == o.srcList + rest by {
        assert rest == [rest[0]] + rest[1..];
      }
      assert o'.(srcList := o'.srcList + rest[1..]) == o.(srcList := o.srcList + rest);
    } else {
      assert o.srcList + rest == o.srcList;
    }
  }

  /** A flag as the last argument always throws, whatever has been read before. */
  lemma TVL1TrailingFlag(flag: string, o: TVL1Args, p: Parsers)
    requires IsTVL1Flag(flag)
    ensures TVL1From([flag], o, p) == Threw(IndexOutOfRange)
  {
  }

  /** srcList only grows, by arguments in their order: the result's list extends the one so far. */
  lemma {:induction false} TVL1SourcesOrdered(rest: seq<string>, o: TVL1Args, p: Parsers)
    ensures TVL1From(rest, o, p).Parsed? ==>
      var r := TVL1From(rest, o, p).value;
      && |o.srcList| <= |r.srcList| && r.srcList[..|o.srcList|] == o.srcList
      && forall i :: |o.srcList| <= i < |r.srcList| ==> r.srcList[i] in rest
    decreases |rest|
  {
    if rest != [] {
      var c := rest[0];
      assert forall x :: x in rest[1..] ==> x in rest;
      if IsTVL1Flag(c) && |rest| > 1 {
        assert forall x :: x in rest[2..] ==> x in rest;
        if c == "-o" {
          TVL1SourcesOrdered(rest[2..], o.(dst := Some(rest[1])), p);
        } else if c == "-l" {
          TVL1SourcesOrdered(rest[2..], o.(lambda := TryParseNullable(rest[1], p.toReal).1), p);
        } else {
          TVL1SourcesOrdered(rest[2..], o.(niters := TryParseNullable(rest[1], p.toInt).1), p);
        }
      } else if !IsTVL1Flag(c) {
        var o' := o.(srcList := o.srcList + [c]);
        TVL1SourcesOrdered(rest[1..], o', p);
        if TVL1From(rest, o, p).Parsed? {
          var r := TVL1From(rest, o, p).value;
          assert r.srcList[..|o'.srcList|] == o'.srcList;
          assert r.srcList[..|o.srcList|] == o'.srcList[..|o.srcList|] == o.srcList;
        }
      }
    }
  }

  /** The positional arguments: those that are neither one of `flags` nor the value following one. */
  function Positionals(rest: seq<string>, flags: set<string>): (ps: seq<string>)
    ensures |ps| <= |rest|
    decreases |rest|
  {
    if rest == [] then []
    else if rest[0] in flags then (if |rest| > 1 then Positionals(rest[2..], flags) else [])
    else [rest[0]] + Positionals(rest[1..], flags)
  }

  /** srcList is exactly the positional arguments, in the order given, after those already listed. */
  lemma {:induction false} TVL1Sources(rest: seq<string>, o: TVL1Args, p: Parsers)
    ensures TVL1From(rest, o, p).Parsed? ==>
      TVL1From(rest, o, p).value.srcList == o.srcList + Positionals(rest, {"-o", "-l", "-n"})
    decreases |rest|
  {
    var flags := {"-o", "-l", "-n"};
    if rest != [] {
      var c := rest[0];
      if IsTVL1Flag(c) && |rest| > 1 {
        if c == "-o" {
          TVL1Sources(rest[2..], o.(dst := Some(rest[1])), p);
        } else if c == "-l" {
          TVL1Sources(rest[2..], o.(lambda := TryParseNullable(rest[1], p.toReal).1), p);
        } else {
          TVL1Sources(rest[2..], o.(niters := TryParseNullable(rest[1], p.toInt).1), p);
        }
      } else if !IsTVL1Flag(c) {
        TVL1Sources(rest[1..], o.(srcList := o.srcList + [c]), p);
        assert (o.srcList + [c]) + Positionals(rest[1..], flags) == o.srcList + ([c] + Positionals(rest[1..], flags));
      }
    } else {
      assert o.srcList + [] == o.srcList;
    }
  }

  /** dst, lambda and niters keep their values when their flag does not occur. */
  lemma {:induction false} TVL1UnflaggedKept(rest: seq<string>, o: TVL1Args, p: Parsers)
    ensures TVL1From(rest, o, p).Parsed? ==>
      var r := TVL1From(rest, o, p).value;
      && ("-o" !in rest ==> r.dst == o.dst)
      && ("-l" !in rest ==> r.lambda == o.lambda)
      && ("-n" !in rest ==> r.niters == o.niters)
    decreases |rest|
  {
    if rest != [] {
      var c := rest[0];
      assert forall x :: x in rest[1..] ==> x in rest;
      if IsTVL1Flag(c) && |rest| > 1 {
        assert forall x :: x in rest[2..] ==> x in rest;
        if c == "-o" {
          TVL1UnflaggedKept(rest[2..], o.(dst := Some(rest[1])), p);
        } else if c == "-l" {
          TVL1UnflaggedKept(rest[2..], o.(lambda := TryParseNullable(rest[1], p.toReal).1), p);
        } else {
          TVL1UnflaggedKept(rest[2..], o.(niters := TryParseNullable(rest[1], p.toInt).1), p);
        }
      } else if !IsTVL1Flag(c) {
        TVL1UnflaggedKept(rest[1..], o.(srcList := o.srcList + [c]), p);
      }
    }
  }

  /** The last -o, -l or -n wins: its value becomes dst, lambda or niters. */
  lemma TVL1LastWins(flag: string, v: string, rest: seq<string>, o: TVL1Args, p: Parsers)
    requires IsTVL1Flag(flag) && flag !in rest
    ensures TVL1From([flag, v] + rest, o, p).Parsed? ==>
      var r := TVL1From([flag, v] + rest, o, p).value;
      && (flag == "-o" ==> r.dst == Some(v))
      && (flag == "-l" ==> r.lambda == Some(p.toReal(v).1))
      && (flag == "-n" ==> r.niters == Some(p.toInt(v).1))
  {
    assert ([flag, v] + rest)[2..] == rest;
    if flag == "-o" {
      TVL1UnflaggedKept(rest, o.(dst := Some(v)), p);
    } else if flag == "-l" {
      TVL1UnflaggedKept(rest, o.(lambda := TryParseNullable(v, p.toReal).1), p);
    } else {
      TVL1UnflaggedKept(rest, o.(niters := TryParseNullable(v, p.toInt).1), p);
    }
  }

  // -------------------------------------------------------------------- DFT

  datatype DFTArgs = DFTArgs(Phs: Option<string>, Mag: Option<string>, Dta: Option<string>, Ori: Option<string>)

  const DFTDefault := DFTArgs(None, None, None, None)

  /** What the loop of DFTArgs.Parse does with the arguments `rest` still to read. */
  function DFTFrom(rest: seq<string>, o: DFTArgs): DFTArgs
    decreases |rest|
  {
    if rest == [] then o
    else
      var c := rest[0];
      if c == "-p" && |rest| > 1 then DFTFrom(rest[2..], o.(Phs := Some(rest[1])))
      else if c == "-m" && |rest| > 1 then DFTFrom(rest[2..], o.(Mag := Some(rest[1])))
      else if c == "-d" && |rest| > 1 then DFTFrom(rest[2..], o.(Dta := Some(rest[1])))
      else if o.Ori.None? then DFTFrom(rest[1..], o.(Ori := Some(c)))
      else DFTFrom(rest[1..], o)
  }

  /** The names derived from a non-empty Ori for the files not named explicitly. */
  function WithDefaults(o: DFTArgs, getBaseName: string -> string): DFTArgs {
    if o.Ori.Some? && o.Ori.value != "" then
      var baseFile := getBaseName(o.Ori.value);
      o.(Mag := if o.Mag.None? then Some(baseFile + ".mag.png") else o.Mag,
         Phs := if o.Phs.None? then Some(baseFile + ".phs.png") else o.Phs,
         Dta := if o.Dta.None? then Some(baseFile + ".dta.png") else o.Dta)
    else o
  }

  /** DFTArgs.Parse, with Helpers.GetBaseName supplied by the caller. */
  method ParseDFT(args: seq<string>, getBaseName: string -> string) returns (o: DFTArgs)
    ensures o == WithDefaults(DFTFrom(args, DFTDefault), getBaseName)
  {
    o := DFTDefault;
    var len := |args|;
    var a := 0;
    while a < len
      invariant a <= len + 1
      invariant DFTFrom(Rest(args, a), o) == DFTFrom(args, DFTDefault)
      decreases len + 1 - a
    {
      var c := args[a];
      assert Rest(args, a)[0] == c;
      var flag := c == "-p" || c == "-m" || c == "-d";
      if flag {
        a := a + 1;
      }
      if flag && a < len {
        assert Rest(args, a - 1)[1] == args[a] && Rest(args, a - 1)[2..] == Rest(args, a + 1);
        if c == "-p" {
          o := o.(Phs := Some(args[a]));
        } else if c == "-m" {
          o := o.(Mag := Some(args[a]));
        } else {
          o := o.(Dta := Some(args[a]));
        }
      } else {
        assert Rest(args, if flag then a - 1 else a)[1..] == Rest(args, a + 1);
        if o.Ori.None? {
          o := o.(Ori := Some(c));
        }
      }
      a := a + 1;
    }
    assert Rest(args, a) == [];
    if o.Ori.Some? && o.Ori.value != "" {
      var baseFile := getBaseName(o.Ori.value);
      if o.Mag.None? { o := o.(Mag := Some(baseFile + ".mag.png")); }
      if o.Phs.None? { o := o.(Phs := Some(baseFile + ".phs.png")); }
      if o.Dta.None? { o := o.(Dta := Some(baseFile + ".dta.png")); }
    }
  }

  /** The first argument that is not a flag or a flag's value becomes Ori; later ones are ignored. */
  lemma DFTFirstOriginal(c: string, rest: seq<string>, o: DFTArgs)
    requires o.Ori.None? && ((c != "-p" && c != "-m" && c != "-d") || rest == [])
    ensures DFTFrom([c] + rest, o).Ori == Some(c)
  {
    assert ([c] + rest)[1..] == rest;
    DFTOriKept(rest, o.(Ori := Some(c)));
  }

  /** Once set, Ori is never replaced. */
  lemma {:induction false} DFTOriKept(rest: seq<string>, o: DFTArgs)
    requires o.Ori.Some?
    ensures DFTFrom(rest, o).Ori == o.Ori
    decreases |rest|
  {
    if rest != [] {
      var c := rest[0];
      if c == "-p" && |rest| > 1 {
        DFTOriKept(rest[2..], o.(Phs := Some(rest[1])));
      } else if c == "-m" && |rest| > 1 {
        DFTOriKept(rest[2..], o.(Mag := Some(rest[1])));
      } else if c == "-d" && |rest| > 1 {
        DFTOriKept(rest[2..], o.(Dta := Some(rest[1])));
      } else {
        DFTOriKept(rest[1..], o);
      }
    }
  }

  /**
   * With a non-empty Ori, every file name is set afterwards: a name given
   * explicitly is kept, a missing one is derived from the base name of Ori.
   */
  lemma DFTDefaultNames(o: DFTArgs, getBaseName: string -> string)
    requires o.Ori.Some? && o.Ori.value != ""
    ensures var r := WithDefaults(o, getBaseName);
      var baseFile := getBaseName(o.Ori.value);
      && r.Ori == o.Ori
      && r.Mag == (if o.Mag.Some? then o.Mag else Some(baseFile + ".mag.png"))
      && r.Phs == (if o.Phs.Some? then o.Phs else Some(baseFile + ".phs.png"))
      && r.Dta == (if o.Dta.Some? then o.Dta else Some(baseFile + ".dta.png"))
  {
  }

  /** Without an Ori (or with an empty one) no name is invented. */
  lemma DFTNoDefaultsWithoutOri(o: DFTArgs, getBaseName: string -> string)
    requires o.Ori.None? || o.Ori.value == ""
    ensures WithDefaults(o, getBaseName) == o
  {
  }

  /** A file name whose flag (-p, -m or -d) does not occur keeps its value. */
  lemma {:induction false} DFTUnflaggedKept(rest: seq<string>, o: DFTArgs)
    ensures "-p" !in rest ==> DFTFrom(rest, o).Phs == o.Phs
    ensures "-m" !in rest ==> DFTFrom(rest, o).Mag == o.Mag
    ensures "-d" !in rest ==> DFTFrom(rest, o).Dta == o.Dta
    decreases |rest|
  {
    if rest != [] {
      var c := rest[0];
      assert forall x :: x in rest[1..] ==> x in rest;
      if c == "-p" && |rest| > 1 {
        assert forall x :: x in rest[2..] ==> x in rest;
        DFTUnflaggedKept(rest[2..], o.(Phs := Some(rest[1])));
      } else if c == "-m" && |rest| > 1 {
        assert forall x :: x in rest[2..] ==> x in rest;
        DFTUnflaggedKept(rest[2..], o.(Mag := Some(rest[1])));
      } else if c == "-d" && |rest| > 1 {
        assert forall x :: x in rest[2..] ==> x in rest;
        DFTUnflaggedKept(rest[2..], o.(Dta := Some(rest[1])));
      } else if o.Ori.None? {
        DFTUnflaggedKept(rest[1..], o.(Ori := Some(c)));
      } else {
        DFTUnflaggedKept(rest[1..], o);
      }
    }
  }

  /** The last -p, -m or -d wins: the value after it names the phase, magnitude or range file. */
  lemma DFTLastWins(flag: string, v: string, rest: seq<string>, o: DFTArgs)
    requires (flag == "-p" || flag == "-m" || flag == "-d") && flag !in rest
    ensures flag == "-p" ==> DFTFrom([flag, v] + rest, o).Phs == Some(v)
    ensures flag == "-m" ==> DFTFrom([flag, v] + rest, o).Mag == Some(v)
    ensures flag == "-d" ==> DFTFrom([flag, v] + rest, o).Dta == Some(v)
  {
    assert ([flag, v] + rest)[2..] == rest;
    if flag == "-p" {
      DFTUnflaggedKept(rest, o.(Phs := Some(v)));
    } else if flag == "-m" {
      DFTUnflaggedKept(rest, o.(Mag := Some(v)));
    } else {
      DFTUnflaggedKept(rest, o.(Dta := Some(v)));
    }
  }
}
