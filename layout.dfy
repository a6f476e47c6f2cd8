/** The fixed-order numeric fingerprint of a song. The same layout is built
    when the catalogue is prepared and when a query is answered; any difference
    would silently skew every distance, so the layout is defined once here. */
module FeatureLayout {

  type Vec = seq<real>

  const MfccCount: nat := 13
  const ChromaCount: nat := 12
  const ContrastCount: nat := 7
  const EmbeddingSize: nat := 1024
  const ReducedSize: nat := 64

  /** The per-signal means and scalars the signal-processing library computes:
      13 MFCC means and standard deviations, 12 chroma means, the spectral
      centroid and bandwidth, 7 spectral-contrast band means, the zero-crossing
      rate and the duration in seconds. How they are computed is not modelled. */
  datatype SpectralSummary = SpectralSummary(
    mfccMean: Vec, mfccStd: Vec, chromaMean: Vec,
    centroid: real, bandwidth: real, contrast: Vec,
    zeroCrossing: real, duration: real)

  /** The block lengths the library produces with its default settings. */
  predicate LibrosaShaped(s: SpectralSummary) {
    |s.mfccMean| == MfccCount && |s.mfccStd| == MfccCount &&
    |s.chromaMean| == ChromaCount && |s.contrast| == ContrastCount
  }

  /** Where the five scalars start. */
  function ScalarOffset(s: SpectralSummary): nat {
    |s.mfccMean| + |s.mfccStd| + |s.chromaMean|
  }

  /** The tempo slot: the scripts never estimate a tempo and always store 0.0. */
  const TempoPlaceholder: real := 0.0

  /** The librosa block: MFCC means, MFCC deviations, chroma means, then
      centroid, bandwidth, zero-crossing rate, tempo placeholder and duration,
      then the contrast means. */
  function LibrosaVector(s: SpectralSummary): (v: Vec)
    ensures |v| == ScalarOffset(s) + 5 + |s.contrast|
  {
    s.mfccMean + s.mfccStd + s.chromaMean
      + [s.centroid, s.bandwidth, s.zeroCrossing, TempoPlaceholder, s.duration]
      + s.contrast
  }

  const LibrosaLength: nat := 50
  const TempoSlot: nat := 41
  const DurationSlot: nat := 42

  /** With the library's default shapes the block has 50 values, the tempo slot
      (index 41) is always 0.0 and the duration sits at index 42. */
  lemma LibrosaSlots(s: SpectralSummary)
    requires LibrosaShaped(s)
    ensures |LibrosaVector(s)| == LibrosaLength
    ensures LibrosaVector(s)[TempoSlot] == 0.0
    ensures LibrosaVector(s)[DurationSlot] == s.duration
  {
  }

  /** Reads the fields back from a librosa block, given the MFCC and chroma counts. */
  function SpectralFields(v: Vec, nMfcc: nat, nChroma: nat): (s: SpectralSummary)
    requires |v| >= 2 * nMfcc + nChroma + 5
  {
    var o := 2 * nMfcc + nChroma;
    SpectralSummary(v[..nMfcc], v[nMfcc..2 * nMfcc], v[2 * nMfcc..o],
      v[o], v[o + 1], v[o + 5..], v[o + 2], v[o + 4])
  }

  /** Every field sits at a fixed offset: the block can be read back. */
  lemma LibrosaRoundTrip(s: SpectralSummary)
    requires |s.mfccStd| == |s.mfccMean|
    ensures SpectralFields(LibrosaVector(s), |s.mfccMean|, |s.chromaMean|) == s
  {
    var v := LibrosaVector(s);
    var n, c := |s.mfccMean|, |s.chromaMean|;
    assert v[..n] == s.mfccMean;
    assert v[n..2 * n] == s.mfccStd;
    assert v[2 * n..2 * n + c] == s.chromaMean;
    assert v[2 * n + c + 5..] == s.contrast;
  }

  /** `np.hstack([librosa, reduced, [instrument], [duration]])`: the fused
      fingerprint of one song. */
  function CombineFeatures(librosa: Vec, reduced: Vec, instrument: real, duration: real): (v: Vec)
    ensures |v| == |librosa| + |reduced| + 2
  {
    librosa + reduced + [instrument] + [duration]
  }

  /** Reads the four blocks back from a fused fingerprint. */
  function FusedFields(v: Vec, nLibrosa: nat, nReduced: nat): (r: (Vec, Vec, real, real))
    requires |v| == nLibrosa + nReduced + 2
  {
    (v[..nLibrosa], v[nLibrosa..nLibrosa + nReduced], v[nLibrosa + nReduced], v[nLibrosa + nReduced + 1])
  }

  /** The fused layout is a bijection between the four blocks and the vector. */
  lemma CombineRoundTrip(librosa: Vec, reduced: Vec, instrument: real, duration: real)
    ensures FusedFields(CombineFeatures(librosa, reduced, instrument, duration), |librosa|, |reduced|)
            == (librosa, reduced, instrument, duration)
  {
    var v := CombineFeatures(librosa, reduced, instrument, duration);
    assert v[..|librosa|] == librosa;
    assert v[|librosa|..|librosa| + |reduced|] == reduced;
  }

  /** `np.zeros(n)`. */
  function Zeros(n: nat): (z: Vec)
    ensures |z| == n && forall i :: 0 <= i < n ==> z[i] == 0.0
  {
    seq(n, _ => 0.0)
  }

  const FusedLength: nat := LibrosaLength + ReducedSize + 2

  /** A query fingerprint and a catalogue row built from default-shaped blocks
      both have 116 values, so they can be compared element by element. */
  lemma FusedShape(s: SpectralSummary, reduced: Vec, instrument: real, duration: real)
    requires LibrosaShaped(s) && |reduced| == ReducedSize
    ensures |CombineFeatures(LibrosaVector(s), reduced, instrument, duration)| == FusedLength
    ensures CombineFeatures(LibrosaVector(s), reduced, instrument, duration)[FusedLength - 1] == duration
  {
  }
}
