/**
 * The entry point of Program.cs: Main's argument guard, ParseMethod's
 * recognition of the help tokens and of the method name, the dispatch guards
 * of MainMain, and which sections Usage prints.
 *
 * The static field Program.Method is a field of a `Program` object.  What
 * reaches the console is returned as a value: the usage sections shown, or the
 * dispatch MainMain made.  The method bodies (Methods.NlMeans and the others)
 * are not part of this model; a dispatch records the call and its arguments.
 */
module EntryPoint {
  import Wrappers
  import opened Helpers
  import opened MethodArgs

  /** Program.MethodType: a C# enum, so any 32-bit value, of which these are named. */
  newtype MethodType = x: int | -0x8000_0000 <= x < 0x8000_0000

  const NoneMethod: MethodType := -1
  const Help: MethodType := 0
  const NlMeans: MethodType := 1
  const NlMeansColored: MethodType := 2
  const Dct: MethodType := 3
  const TVL1: MethodType := 4
  const DFTForward: MethodType := 5
  const DFTInverse: MethodType := 6

  /** A block of the usage text: the synopsis and method list, the "Additional Information" header, one method's details. */
  datatype Section = Synopsis | Header | Details(topic: MethodType)

  /** Program.Usage: which sections it prints for `help`, in order. */
  function UsageSections(help: MethodType): (s: seq<Section>)
    ensures |s| > 0 && s[0] == Synopsis
  {
    [Synopsis] +
    if help >= Help then
      [Header]
      + (if help == Help || help == NlMeans then [Details(NlMeans)] else [])
      + (if help == Help || help == NlMeansColored then [Details(NlMeansColored)] else [])
      + (if help == Help || help == Dct then [Details(Dct)] else [])
      + (if help == Help || help == TVL1 then [Details(TVL1)] else [])
      + (if help == Help || help == DFTForward then [Details(DFTForward)] else [])
      + (if help == Help || help == DFTInverse then [Details(DFTInverse)] else [])
    else []
  }

  /** The sections Usage prints for each kind of `help`: all of them, one method's, or none beyond the synopsis. */
  lemma UsageCases(help: MethodType)
    ensures help < Help ==> UsageSections(help) == [Synopsis]
    ensures help == Help ==>
      UsageSections(help) == [Synopsis, Header, Details(NlMeans), Details(NlMeansColored), Details(Dct),
                              Details(TVL1), Details(DFTForward), Details(DFTInverse)]
    ensures NlMeans <= help <= DFTInverse ==> UsageSections(help) == [Synopsis, Header, Details(help)]
    ensures help > DFTInverse ==> UsageSections(help) == [Synopsis, Header]
  {
  }

  /** The "Additional Information" header appears exactly when help >= Help. */
  lemma UsageHeader(help: MethodType)
    ensures Header in UsageSections(help) <==> help >= Help
  {
    UsageCases(help);
    if help < Help {
      assert UsageSections(help)[0] == Synopsis;
    } else {
      assert UsageSections(help)[1] == Header;
    }
  }

  /** The details of method k appear exactly when help is Help or k; no other section is a method's details. */
  lemma UsageDetails(help: MethodType)
    ensures forall k :: NlMeans <= k <= DFTInverse ==> (Details(k) in UsageSections(help) <==> help == Help || help == k)
    ensures forall k :: !(NlMeans <= k <= DFTInverse) ==> Details(k) !in UsageSections(help)
  {
    UsageCases(help);
    var s := UsageSections(help);
    if help == Help {
      assert forall k :: NlMeans <= k <= DFTInverse ==> s[k + 1] == Details(k);
    } else if NlMeans <= help <= DFTInverse {
      assert s[2] == Details(help);
    }
  }

  /** The details that Usage prints come in the order of the methods. */
  lemma UsageOrder(help: MethodType)
    ensures forall i, j :: 0 <= i < j < |UsageSections(help)| && UsageSections(help)[i].Details? && UsageSections(help)[j].Details? ==>
      UsageSections(help)[i].topic < UsageSections(help)[j].topic
  {
    UsageCases(help);
    var s := UsageSections(help);
    if help == Help {
      assert forall i :: 2 <= i < |s| ==> s[i] == Details((i - 1) as MethodType);
    }
  }

  /** The tokens that ask for help instead of naming a method. */
  predicate IsHelpToken(m: string, sameIgnoringCase: (string, string) -> bool) {
    m == "--help" || m == "/?" || EqualsIC(Wrappers.Some(m), Wrappers.Some("help"), sameIgnoringCase) || m == "0"
  }

  /** The .NET collaborators of Program: Enum.TryParse for MethodType, culture-aware case comparison, the argument parsers' handlers and Helpers.GetBaseName. */
  datatype Runtime = Runtime(
    enumParse: Handler<MethodType>,
    sameIgnoringCase: (string, string) -> bool,
    parsers: Parsers,
    getBaseName: string -> string)

  /** Enum.TryParse: the parsed value, or default(MethodType) = Help when the text does not parse. */
  function ParseEnum(s: string, rt: Runtime): MethodType {
    var (ok, v) := TryParse(s, rt.enumParse);
    if ok then v else Help
  }

  /** What MainMain did. */
  datatype Dispatch =
    | NoMethod                                   // Method matches no branch
    | RunNlMeans(nlMeans: Wrappers.Option<NlMeansArgs>)                 // Methods.NlMeans(ments); None is a null ments
    | RunNlMeansColored(colored: Wrappers.Option<NlMeansColoredArgs>)   // Methods.NlMeansColored(ments)
    | RunDct(dct: DctArgs)                       // Methods.Dct(ments)
    | RunTVL1(tvl1: TVL1Args)                    // Methods.TVL1(ments)
    | RunDFTForward(dft: DFTArgs)                // Methods.DFTForward(ments)
    | Missing(option: string)                    // "option ... is required", nothing run
    | Crashed(error: Wrappers.Exception)         // an exception caught and logged by Main

  /** What Main did: printed usage and stopped, or went on to MainMain. */
  datatype Outcome = ShowedUsage(sections: seq<Section>) | Ran(dispatch: Dispatch)

  function Dispatched<T>(r: Parsed<T>, run: Wrappers.Option<T> -> Dispatch): Dispatch {
    match r
    case Threw(e) => Crashed(e)
    case Null => run(Wrappers.None)
    case Parsed(o) => run(Wrappers.Some(o))
  }

  class Program {
    /** Program.Method, the method chosen by ParseMethod. */
    var Method: MethodType

    constructor ()
      ensures Method == NoneMethod
    {
      Method := NoneMethod;
    }

    /**
     * Program.ParseMethod: a help token shows the usage for the method named by
     * the second argument (Help when there is none or it does not parse) and
     * stops; any other first argument is parsed as the method, Help when it
     * does not parse, and the run goes on.
     */
    method ParseMethod(args: seq<string>, rt: Runtime) returns (proceed: bool, usage: seq<Section>)
      requires |args| >= 1
      modifies this
      ensures !proceed <==> IsHelpToken(args[0], rt.sameIgnoringCase)
      ensures !proceed ==> Method == old(Method) &&
                           usage == UsageSections(if |args| > 1 then ParseEnum(args[1], rt) else Help)
      ensures proceed ==> Method == ParseEnum(args[0], rt) && usage == []
    {
      var m := args[0];
      if m == "--help" || m == "/?" || EqualsIC(Wrappers.Some(m), Wrappers.Some("help"), rt.sameIgnoringCase) || m == "0" {
        var meth := Help;
        if |args| > 1 {
          var (ok, v) := TryParse(args[1], rt.enumParse);
          meth := if ok then v else Help;
        }
        return false, UsageSections(meth);
      }
      var (ok, v) := TryParse(m, rt.enumParse);
      Method := if ok then v else Help;
      return true, [];
    }

    /**
     * Program.MainMain: parses the arguments for the chosen method and runs it,
     * after the required-option checks of Dct (sigma) and TVL1 (lambda, then
     * niters).  DFTInverse has no branch.
     */
    method MainMain(args: seq<string>, rt: Runtime) returns (d: Dispatch)
      ensures Method == NlMeans ==>
        d == Dispatched(NlMeansFrom(args, NlMeansDefault, rt.parsers), o => RunNlMeans(o))
      ensures Method == NlMeansColored ==>
        d == Dispatched(NlMeansColoredFrom(args, NlMeansColoredDefault, rt.parsers), o => RunNlMeansColored(o))
      ensures d.RunDct? <==>
        Method == Dct && DctFrom(args, DctDefault, rt.parsers).Parsed? &&
        DctFrom(args, DctDefault, rt.parsers).value.sigma.Some?
      ensures d.RunDct? ==> d.dct == DctFrom(args, DctDefault, rt.parsers).value
      ensures (Method == Dct && DctFrom(args, DctDefault, rt.parsers).Parsed? &&
               DctFrom(args, DctDefault, rt.parsers).value.sigma.None?) ==> d == Missing("-s")
      ensures d.RunTVL1? <==>
        Method == TVL1 && TVL1From(args, TVL1Default, rt.parsers).Parsed? &&
        TVL1From(args, TVL1Default, rt.parsers).value.lambda.Some? &&
        TVL1From(args, TVL1Default, rt.parsers).value.niters.Some?
      ensures d.RunTVL1? ==> d.tvl1 == TVL1From(args, TVL1Default, rt.parsers).value
      ensures Method == TVL1 && TVL1From(args, TVL1Default, rt.parsers).Parsed? ==>
        var o := TVL1From(args, TVL1Default, rt.parsers).value;
        (o.lambda.None? ==> d == Missing("-l")) && (o.lambda.Some? && o.niters.None? ==> d == Missing("-n"))
      ensures ((Method == Dct && DctFrom(args, DctDefault, rt.parsers).Null?) ||
               (Method == TVL1 && TVL1From(args, TVL1Default, rt.parsers).Null?)) ==> d == Crashed(Wrappers.NullReference)
      ensures Method == Dct && DctFrom(args, DctDefault, rt.parsers).Threw? ==>
        d == Crashed(DctFrom(args, DctDefault, rt.parsers).error)
      ensures Method == TVL1 && TVL1From(args, TVL1Default, rt.parsers).Threw? ==>
        d == Crashed(TVL1From(args, TVL1Default, rt.parsers).error)
      ensures Method == DFTForward ==> d == RunDFTForward(WithDefaults(DFTFrom(args, DFTDefault), rt.getBaseName))
      ensures !(NlMeans <= Method <= DFTForward) ==> d == NoMethod
    {
      if Method == NlMeans {
        var ments := ParseNlMeans(args, rt.parsers);
        d := Dispatched(ments, o => RunNlMeans(o));
      } else if Method == NlMeansColored {
        var ments := ParseNlMeansColored(args, rt.parsers);
        d := Dispatched(ments, o => RunNlMeansColored(o));
      } else if Method == Dct {
        var ments := ParseDct(args, rt.parsers);
        match ments {
          case Threw(e) => d := Crashed(e);
          case Null => d := Crashed(Wrappers.NullReference);   // ments.sigma on a null ments
          case Parsed(o) =>
            if o.sigma.None? {
              d := Missing("-s");
            } else {
              d := RunDct(o);
            }
        }
      } else if Method == TVL1 {
        var ments := ParseTVL1(args, rt.parsers);
        match ments {
          case Threw(e) => d := Crashed(e);
          case Null => d := Crashed(Wrappers.NullReference);
          case Parsed(o) =>
            if o.lambda.None? {
              d := Missing("-l");
            } else if o.niters.None? {
              d := Missing("-n");
            } else {
              d := RunTVL1(o);
            }
        }
      } else if Method == DFTForward {
        var ments := ParseDFT(args, rt.getBaseName);
        d := RunDFTForward(ments);
      } else {
        d := NoMethod;
      }
    }

    /**
     * Program.Main: with no arguments it prints the bare usage and stops; a help
     * token stops after ParseMethod; otherwise MainMain runs on the arguments
     * after the method token.
     */
    method Start(args: seq<string>, rt: Runtime) returns (r: Outcome)
      modifies this
      ensures |args| == 0 ==> r == ShowedUsage([Synopsis]) && Method == old(Method)
      ensures |args| > 0 && IsHelpToken(args[0], rt.sameIgnoringCase) ==>
        r.ShowedUsage? && Method == old(Method)
      ensures |args| > 0 && !IsHelpToken(args[0], rt.sameIgnoringCase) ==>
        r.Ran? && Method == ParseEnum(args[0], rt)
    {
      if |args| < 1 {
        return ShowedUsage(UsageSections(NoneMethod));
      }
      var proceed, usage := ParseMethod(args, rt);
      if !proceed {
        return ShowedUsage(usage);
      }
      var d := MainMain(args[1..], rt);
      return Ran(d);
    }
  }
}
