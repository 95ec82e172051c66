/**
 * The DFT pipeline of Methods.cs: DFTForward and DFTInverse, the channel loops
 * of ForwardTransform and InverseTransform, and the per-channel steps with
 * their zero padding and quadrant rearrangement.
 *
 * The numerical work is OpenCV's and stays abstract: the record `Spectral`
 * carries it as functions on planes of samples, and the record `Files` carries
 * image and metadata I/O.  What is modelled is how the planes are padded,
 * moved, rearranged and routed from channel to channel, and when the
 * operations stop early.
 */
module Pipeline {
  import opened Wrappers
  import opened Quadrants
  import MethodArgs

  /** One channel of an image: rows of samples. */
  type Plane = seq<seq<real>>

  /** A plane of |g| rows by w columns with the same shape as g. */
  predicate SameShape(x: Plane, g: Plane, w: nat) {
    |x| == |g| && IsGrid(x, w)
  }

  /** Helpers.NormData: the range of a channel's log-magnitude and phase before quantisation. */
  datatype NormData = NormData(magMin: real, magMax: real, phsMin: real, phsMax: real)

  /** The OpenCV steps of the transform, as functions on planes. */
  datatype Spectral = Spectral(
    optimalSize: nat -> nat,                  // CvInvoke.GetOptimalDFTSize
    forward: Plane -> (Plane, Plane),         // to 32F, Dft of (plane, 0), CartToPolar, log(1 + magnitude)
    minMax: Plane -> (real, real),            // CvInvoke.MinMaxIdx
    quantize: Plane -> Plane,                 // CvInvoke.Normalize, min-max onto [0, 65535] as Cv16U
    restore: (Plane, real, real) -> Plane,    // CvInvoke.Normalize, min-max onto [lo, hi] as Cv32F
    inverse: (Plane, Plane) -> Plane)         // exp(magnitude) - 1, PolarToCart, inverse Dft, real part
  {
    /**
     * What the model takes from OpenCV: optimal sizes are never smaller (GetOptimalDFTSize
     * is taken on sizes it can enlarge), and every step keeps the plane's shape.
     */
    ghost predicate Valid() {
      && (forall n: nat :: optimalSize(n) >= n)
      && (forall g: Plane, w: nat {:trigger IsGrid(g, w), forward(g)} ::
            IsGrid(g, w) ==> SameShape(forward(g).0, g, w) && SameShape(forward(g).1, g, w))
      && (forall g: Plane, w: nat {:trigger IsGrid(g, w), quantize(g)} ::
            IsGrid(g, w) ==> SameShape(quantize(g), g, w))
      && (forall g: Plane, w: nat, lo: real, hi: real {:trigger IsGrid(g, w), restore(g, lo, hi)} ::
            IsGrid(g, w) ==> SameShape(restore(g, lo, hi), g, w))
      && (forall m: Plane, p: Plane, w: nat {:trigger IsGrid(m, w), inverse(m, p)} ::
            IsGrid(m, w) && SameShape(p, m, w) ==> SameShape(inverse(m, p), m, w))
    }
  }

  /** A multi-channel image: its channels as CvInvoke.Split returns them. */
  datatype Image = Image(rows: nat, cols: nat, channels: seq<Plane>) {
    ghost predicate Valid() {
      |channels| >= 1 && forall k :: 0 <= k < |channels| ==> |channels[k]| == rows && IsGrid(channels[k], cols)
    }
  }

  // ------------------------------------------------------------- padding

  /** `g` (|g| rows of w samples) padded with zeros at the bottom and right to rows x cols. */
  function Padded(g: Plane, w: nat, rows: nat, cols: nat): (r: Plane)
    ensures SameShape(r, seq(rows, _ => []), cols)
  {
    seq(rows, i requires 0 <= i < rows =>
      seq(cols, j requires 0 <= j < cols => if i < |g| && j < w && j < |g[i]| then g[i][j] else 0.0))
  }

  /**
   * Padding to at least the original size keeps every original sample at its
   * index and fills the added bottom rows and right columns with 0.
   */
  lemma PaddedCells(g: Plane, w: nat, rows: nat, cols: nat)
    requires IsGrid(g, w) && |g| <= rows && w <= cols
    ensures |Padded(g, w, rows, cols)| == rows && IsGrid(Padded(g, w, rows, cols), cols)
    ensures forall i, j :: 0 <= i < |g| && 0 <= j < w ==> Padded(g, w, rows, cols)[i][j] == g[i][j]
    ensures forall i, j :: 0 <= i < rows && 0 <= j < cols && (i >= |g| || j >= w) ==>
              Padded(g, w, rows, cols)[i][j] == 0.0
  {
  }

  /** A fresh array holding the samples of `g`. */
  method FromCells(g: Plane, w: nat) returns (a: array2<real>)
    requires IsGrid(g, w)
    ensures fresh(a) && a.Length0 == |g| && a.Length1 == w
    ensures Cells(a) == g
  {
    a := new real[|g|, w]((i, j) requires 0 <= i < |g| && 0 <= j < w => g[i][j]);
    GridsEqual(Cells(a), g, w);
  }

  /**
   * CvInvoke.CopyMakeBorder with a constant 0 border on the bottom and right:
   * a fresh rows x cols array with the source's samples in its top-left corner.
   */
  method CopyMakeBorder(src: array2<real>, rows: nat, cols: nat) returns (dst: array2<real>)
    requires src.Length0 <= rows && src.Length1 <= cols
    ensures fresh(dst) && dst.Length0 == rows && dst.Length1 == cols
    ensures Cells(dst) == Padded(Cells(src), src.Length1, rows, cols)
  {
    dst := new real[rows, cols]((i, j) reads src =>
      if 0 <= i < src.Length0 && 0 <= j < src.Length1 then src[i, j] else 0.0);
    GridsEqual(Cells(dst), Padded(Cells(src), src.Length1, rows, cols), cols);
  }

  // ------------------------------------------------------------- forward

  /** The log-magnitude and phase planes ForwardChannel leaves, before quantisation. */
  function ForwardPlanes(sp: Spectral, g: Plane, w: nat): (r: (Plane, Plane))
    requires sp.Valid() && IsGrid(g, w)
    ensures var rows, cols := sp.optimalSize(|g|), sp.optimalSize(w);
      |r.0| == rows && IsGrid(r.0, cols) && |r.1| == rows && IsGrid(r.1, cols)
  {
    var rows, cols := sp.optimalSize(|g|), sp.optimalSize(w);
    var padded := Padded(g, w, rows, cols);
    var (mag, phs) := sp.forward(padded);
    (Rearranged(mag, cols), Rearranged(phs, cols))
  }

  /**
   * Methods.ForwardChannel: pads the channel to the optimal DFT size, transforms
   * it, and moves the low frequencies of magnitude and phase to the centre.
   */
  method ForwardChannel(sp: Spectral, imgSrc: array2<real>) returns (mag: array2<real>, phs: array2<real>)
    requires sp.Valid()
    ensures fresh(mag) && fresh(phs)
    ensures (Cells(mag), Cells(phs)) == ForwardPlanes(sp, Cells(imgSrc), imgSrc.Length1)
  {
    var xdftsz := sp.optimalSize(imgSrc.Length0);
    var ydftsz := sp.optimalSize(imgSrc.Length1);
    var padded := CopyMakeBorder(imgSrc, xdftsz, ydftsz);
    var (m, p) := sp.forward(Cells(padded));
    mag := FromCells(m, ydftsz);
    phs := FromCells(p, ydftsz);
    RearrangeQuadrants(mag);
    RearrangeQuadrants(phs);
  }

  /** What ForwardNormChannel yields for one channel. */
  datatype ChannelOut = ChannelOut(mag: Plane, phs: Plane, norm: NormData)

  function ForwardNorm(sp: Spectral, g: Plane, w: nat): (r: ChannelOut)
    requires sp.Valid() && IsGrid(g, w)
    ensures var rows, cols := sp.optimalSize(|g|), sp.optimalSize(w);
      |r.mag| == rows && IsGrid(r.mag, cols) && |r.phs| == rows && IsGrid(r.phs, cols)
  {
    var (mag, phs) := ForwardPlanes(sp, g, w);
    var (magMin, magMax) := sp.minMax(mag);
    var (phsMin, phsMax) := sp.minMax(phs);
    ChannelOut(sp.quantize(mag), sp.quantize(phs),
               NormData(magMin, magMax, phsMin, phsMax))
  }

  /** Methods.ForwardNormChannel: records the ranges, then quantises both planes onto 0..65535. */
  method ForwardNormChannel(sp: Spectral, chanSrc: Plane, w: nat) returns (magOut: Plane, phsOut: Plane, norm: NormData)
    requires sp.Valid() && IsGrid(chanSrc, w)
    ensures ChannelOut(magOut, phsOut, norm) == ForwardNorm(sp, chanSrc, w)
  {
    var imgSrc := FromCells(chanSrc, w);
    var mag, phs := ForwardChannel(sp, imgSrc);
    var (magMin, magMax) := sp.minMax(Cells(mag));
    var (phsMin, phsMax) := sp.minMax(Cells(phs));
    norm := NormData(magMin, magMax, phsMin, phsMax);
    magOut := sp.quantize(Cells(mag));
    phsOut := sp.quantize(Cells(phs));
  }

  /**
   * Methods.ForwardTransform: one ForwardNormChannel per channel, in channel
   * order; entry m of each list comes from channel m alone.  The merged
   * magnitude and phase images have the padded size.
   */
  method ForwardTransform(sp: Spectral, src: Image) returns (magMat: Image, phsMat: Image, normList: seq<NormData>)
    requires sp.Valid() && src.Valid()
    ensures |magMat.channels| == |phsMat.channels| == |normList| == |src.channels|
    ensures forall m :: 0 <= m < |src.channels| ==>
      ChannelOut(magMat.channels[m], phsMat.channels[m], normList[m]) == ForwardNorm(sp, src.channels[m], src.cols)
    ensures magMat.Valid() && phsMat.Valid()
    ensures magMat.rows == phsMat.rows == sp.optimalSize(src.rows)
    ensures magMat.cols == phsMat.cols == sp.optimalSize(src.cols)
  {
    var matList := src.channels;
    var chanCount := |matList|;
    var magList: seq<Plane> := seq(chanCount, _ => []);
    var phsList: seq<Plane> := seq(chanCount, _ => []);
    normList := seq(chanCount, _ => NormData(0.0, 0.0, 0.0, 0.0));
    for m := 0 to chanCount
      invariant |magList| == |phsList| == |normList| == chanCount
      invariant forall k :: 0 <= k < m ==>
        ChannelOut(magList[k], phsList[k], normList[k]) == ForwardNorm(sp, matList[k], src.cols)
    {
      var mag, phs, norm := ForwardNormChannel(sp, matList[m], src.cols);
      magList := magList[m := mag];
      phsList := phsList[m := phs];
      normList := normList[m := norm];
    }
    var rows, cols := sp.optimalSize(src.rows), sp.optimalSize(src.cols);
    magMat := Image(rows, cols, magList);
    phsMat := Image(rows, cols, phsList);
    MergedValid(sp, src, magMat, phsMat, normList);
  }

  /** The per-channel outputs of ForwardTransform all have the padded size, so their merges are images of that size. */
  lemma MergedValid(sp: Spectral, src: Image, magMat: Image, phsMat: Image, normList: seq<NormData>)
    requires sp.Valid() && src.Valid()
    requires |magMat.channels| == |phsMat.channels| == |normList| == |src.channels|
    requires magMat.rows == phsMat.rows == sp.optimalSize(src.rows)
    requires magMat.cols == phsMat.cols == sp.optimalSize(src.cols)
    requires forall m :: 0 <= m < |src.channels| ==>
      ChannelOut(magMat.channels[m], phsMat.channels[m], normList[m]) == ForwardNorm(sp, src.channels[m], src.cols)
    ensures magMat.Valid() && phsMat.Valid()
  {
    forall k | 0 <= k < |src.channels|
      ensures |magMat.channels[k]| == magMat.rows && IsGrid(magMat.channels[k], magMat.cols)
      ensures |phsMat.channels[k]| == phsMat.rows && IsGrid(phsMat.channels[k], phsMat.cols)
    {
      var out := ForwardNorm(sp, src.channels[k], src.cols);
      assert out.mag == magMat.channels[k] && out.phs == phsMat.channels[k];
    }
  }

  // ------------------------------------------------------------- inverse

  /** What InverseChannel hands to the inverse transform: both planes moved back, then inverted. */
  function InversePlane(sp: Spectral, mag: Plane, phs: Plane, w: nat): Plane
    requires IsGrid(mag, w) && IsGrid(phs, w)
  {
    sp.inverse(Rearranged(mag, w), Rearranged(phs, w))
  }

  /**
   * Methods.InverseChannel: moves the quadrants of magnitude and phase back in
   * place, then inverts the transform.
   */
  method InverseChannel(sp: Spectral, mag: array2<real>, phs: array2<real>) returns (img: Plane)
    requires mag != phs && mag.Length1 == phs.Length1
    modifies mag, phs
    ensures Cells(mag) == Rearranged(old(Cells(mag)), mag.Length1)
    ensures Cells(phs) == Rearranged(old(Cells(phs)), phs.Length1)
    ensures img == InversePlane(sp, old(Cells(mag)), old(Cells(phs)), mag.Length1)
  {
    RearrangeQuadrants(mag);
    RearrangeQuadrants(phs);
    img := sp.inverse(Cells(mag), Cells(phs));
  }

  function InverseNorm(sp: Spectral, magSrc: Plane, phsSrc: Plane, norm: NormData, w: nat): Plane
    requires sp.Valid() && IsGrid(magSrc, w) && SameShape(phsSrc, magSrc, w)
  {
    var mag := sp.restore(magSrc, norm.magMin, norm.magMax);
    var phs := sp.restore(phsSrc, norm.phsMin, norm.phsMax);
    sp.quantize(InversePlane(sp, mag, phs, w))
  }

  /** Methods.InverseNormChannel: restores the recorded ranges, inverts, and quantises onto 0..65535. */
  method InverseNormChannel(sp: Spectral, magSrc: Plane, phsSrc: Plane, norm: NormData, w: nat) returns (imgOut: Plane)
    requires sp.Valid() && IsGrid(magSrc, w) && SameShape(phsSrc, magSrc, w)
    ensures imgOut == InverseNorm(sp, magSrc, phsSrc, norm, w)
    ensures SameShape(imgOut, magSrc, w)
  {
    var mag := FromCells(sp.restore(magSrc, norm.magMin, norm.magMax), w);
    var phs := FromCells(sp.restore(phsSrc, norm.phsMin, norm.phsMax), w);
    var img := InverseChannel(sp, mag, phs);
    imgOut := sp.quantize(img);
  }

  /** Whether InverseTransform finds a phase plane and a range for every magnitude channel. */
  predicate Complete(chanCount: nat, phsCount: nat, normList: Option<seq<NormData>>) {
    phsCount >= chanCount && (chanCount == 0 || (normList.Some? && |normList.value| >= chanCount))
  }

  /**
   * Methods.InverseTransform: one output channel per magnitude channel, channel
   * c computed from magnitude c, phase c and range c.  A missing phase channel
   * or range throws IndexOutOfRange, a null range list NullReference.
   */
  method InverseTransform(sp: Spectral, magSrc: Image, phsSrc: Image, normList: Option<seq<NormData>>)
    returns (r: Result<Image, Exception>)
    requires sp.Valid() && magSrc.Valid() && phsSrc.Valid()
    requires magSrc.rows == phsSrc.rows && magSrc.cols == phsSrc.cols
    ensures r.Success? <==> Complete(|magSrc.channels|, |phsSrc.channels|, normList)
    ensures r.Success? ==>
      && r.value.rows == magSrc.rows && r.value.cols == magSrc.cols
      && |r.value.channels| == |magSrc.channels|
      && forall c :: 0 <= c < |magSrc.channels| ==>
           r.value.channels[c] ==
           InverseNorm(sp, magSrc.channels[c], phsSrc.channels[c], normList.value[c], magSrc.cols)
    ensures r.Failure? ==>
      r.error == if normList.None? && |phsSrc.channels| > 0 then NullReference else IndexOutOfRange
  {
    var chanCount := |magSrc.channels|;
    var magList := magSrc.channels;
    var phsList := phsSrc.channels;
    var oriList := new Plane[chanCount];
    for c := 0 to chanCount
      invariant c <= |phsList| && (c > 0 ==> normList.Some? && c <= |normList.value|)
      invariant forall k :: 0 <= k < c ==>
        oriList[k] == InverseNorm(sp, magList[k], phsList[k], normList.value[k], magSrc.cols)
    {
      if c >= |phsList| {
        return Failure(IndexOutOfRange);
      }
      if normList.None? {
        return Failure(NullReference);
      }
      if c >= |normList.value| {
        return Failure(IndexOutOfRange);
      }
      var ori := InverseNormChannel(sp, magList[c], phsList[c], normList.value[c], magSrc.cols);
      oriList[c] := ori;
    }
    r := Success(Image(magSrc.rows, magSrc.cols, oriList[..]));
  }

  /**
   * Rearranging is undone on the way back: fed the planes ForwardChannel
   * produced, InverseChannel inverts exactly the planes the forward transform
   * of the padded channel gave.
   */
  lemma QuadrantsRestored(sp: Spectral, g: Plane, w: nat)
    requires sp.Valid() && IsGrid(g, w)
    ensures var cols := sp.optimalSize(w);
      var padded := Padded(g, w, sp.optimalSize(|g|), cols);
      InversePlane(sp, ForwardPlanes(sp, g, w).0, ForwardPlanes(sp, g, w).1, cols) ==
      sp.inverse(sp.forward(padded).0, sp.forward(padded).1)
  {
    var rows, cols := sp.optimalSize(|g|), sp.optimalSize(w);
    var padded := Padded(g, w, rows, cols);
    assert IsGrid(padded, cols);
    RearrangedTwice(sp.forward(padded).0, cols);
    RearrangedTwice(sp.forward(padded).1, cols);
  }

  // ------------------------------------------------------------ DFT entry points

  /** Image and metadata I/O: Imread, Helpers.GetSafeFileName and Helpers.TryReadDtaFile's out list (None for null). */
  datatype Files = Files(
    imread: Option<string> -> Image,
    safeName: Option<string> -> Option<string>,
    readDta: Option<string> -> Option<seq<NormData>>)
  {
    ghost predicate Valid() {
      forall name :: imread(name).Valid()
    }
  }

  /** What a DFT operation did to the outside world, in order. */
  datatype Effect =
    | Load(name: Option<string>)
    | LoadDta(dta: Option<string>)
    | Save(target: Option<string>, image: Image)
    | SaveDta(dtaTarget: Option<string>, norms: seq<NormData>)

  /**
   * Methods.DFTForward: reads the original, transforms it, and saves the
   * magnitude, the phase and the ranges, in that order, under the names of `all`.
   */
  method DFTForward(sp: Spectral, io: Files, all: MethodArgs.DFTArgs) returns (effects: seq<Effect>)
    requires sp.Valid() && io.Valid()
    ensures |effects| == 4 && effects[0] == Load(all.Ori)
    ensures effects[1].Save? && effects[1].target == io.safeName(all.Mag)
    ensures effects[2].Save? && effects[2].target == io.safeName(all.Phs)
    ensures effects[3].SaveDta? && effects[3].dtaTarget == all.Dta
    ensures var src := io.imread(all.Ori);
      && |effects[1].image.channels| == |effects[2].image.channels| == |effects[3].norms| == |src.channels|
      && forall m :: 0 <= m < |src.channels| ==>
           ChannelOut(effects[1].image.channels[m], effects[2].image.channels[m], effects[3].norms[m]) ==
           ForwardNorm(sp, src.channels[m], src.cols)
  {
    var imgSrc := io.imread(all.Ori);
    var magMat, phsMat, normList := ForwardTransform(sp, imgSrc);
    effects := [Load(all.Ori), Save(io.safeName(all.Mag), magMat), Save(io.safeName(all.Phs), phsMat),
                SaveDta(all.Dta, normList)];
  }

  /**
   * Methods.DFTInverse: reads magnitude and phase; when their sizes differ it
   * stops there, without reading the ranges, transforming or saving.  Otherwise
   * it reads the ranges, inverts, and saves the result under the original's name.
   */
  method DFTInverse(sp: Spectral, io: Files, all: MethodArgs.DFTArgs) returns (effects: seq<Effect>, error: Option<Exception>)
    requires sp.Valid() && io.Valid()
    ensures var magSrc, phsSrc := io.imread(all.Mag), io.imread(all.Phs);
      (magSrc.rows != phsSrc.rows || magSrc.cols != phsSrc.cols) ==>
        effects == [Load(all.Mag), Load(all.Phs)] && error == None
    ensures var magSrc, phsSrc := io.imread(all.Mag), io.imread(all.Phs);
      (magSrc.rows == phsSrc.rows && magSrc.cols == phsSrc.cols) ==>
        && |effects| >= 3 && effects[..3] == [Load(all.Mag), Load(all.Phs), LoadDta(all.Dta)]
        && (error == None <==> Complete(|magSrc.channels|, |phsSrc.channels|, io.readDta(all.Dta)))
        && (error == None ==> |effects| == 4 && effects[3].Save? && effects[3].target == io.safeName(all.Ori))
        && (error != None ==> |effects| == 3)
    ensures var magSrc, phsSrc, dta := io.imread(all.Mag), io.imread(all.Phs), io.readDta(all.Dta);
      (magSrc.rows == phsSrc.rows && magSrc.cols == phsSrc.cols && error == None) ==>
        var saved := effects[3].image;
        && saved.rows == magSrc.rows && saved.cols == magSrc.cols
        && |saved.channels| == |magSrc.channels|
        && forall c :: 0 <= c < |magSrc.channels| ==>
             saved.channels[c] == InverseNorm(sp, magSrc.channels[c], phsSrc.channels[c], dta.value[c], magSrc.cols)
    ensures var magSrc, phsSrc, dta := io.imread(all.Mag), io.imread(all.Phs), io.readDta(all.Dta);
      (magSrc.rows == phsSrc.rows && magSrc.cols == phsSrc.cols && error != None) ==>
        error == Some(if dta.None? && |phsSrc.channels| > 0 then NullReference else IndexOutOfRange)
  {
    var magSrc := io.imread(all.Mag);
    var phsSrc := io.imread(all.Phs);
    effects := [Load(all.Mag), Load(all.Phs)];
    if magSrc.rows != phsSrc.rows || magSrc.cols != phsSrc.cols {
      return effects, None;
    }
    var normList := io.readDta(all.Dta);
    effects := effects + [LoadDta(all.Dta)];
    var orig := InverseTransform(sp, magSrc, phsSrc, normList);
    if orig.Failure? {
      return effects, Some(orig.error);
    }
    effects := effects + [Save(io.safeName(all.Ori), orig.value)];
    error := None;
  }
}
