/**
 * `decode_sequence` of stt/processor.py: the guards in front of the Viterbi
 * decoder and the post-processing of the state path it returns (map each
 * state to its phoneme, collapse runs, drop silence, join with spaces). The
 * decoder itself is floating-point numerics and is a parameter here: the
 * path it returns, or `None` when it raises.
 */
module PhonemeDecoder {
  import opened Json

  /** The parts of the loaded `HMM` object `decode_sequence` reads. */
  datatype HmmModel = HmmModel(numStates: nat, mfccDim: nat, indexMap: map<int, string>)

  /** The argument: something that is not a numpy array, or an array of the
      given shape (its length is `ndim`). */
  datatype Features = NotAnArray | NdArray(shape: seq<nat>)

  const HmmInitError := "[HMM Init Error]"
  const MfccDimError := "[MFCC Dim Error]"
  const DecodingError := "[Decoding Error]"
  const Silence := "SIL"

  /** `PHONEMES` of stt/phonemes.py: state 0 is silence. */
  const Phonemes: seq<string> := ["SIL", "HH", "AY", "EH", "L", "OW", "Y", "S", "N", "B", "AE", "D", "G", "UH"]

  /** `INDEX_MAP`: state index to phoneme name. */
  const IndexMap: map<int, string> := map i | 0 <= i < |Phonemes| :: Phonemes[i]

  /** The model `init_hmm_params` builds: 14 states, 13 MFCC coefficients. */
  const StandardModel := HmmModel(|Phonemes|, 13, IndexMap)

  // ---------------------------------------------------------------------
  // Post-processing
  // ---------------------------------------------------------------------

  /** `[index_map[idx] for idx in path]`, for a path whose every state is a
      key of the map. */
  function MapPath(m: map<int, string>, path: seq<int>): (r: seq<string>)
    requires forall k :: 0 <= k < |path| ==> path[k] in m
    ensures |r| == |path| && forall k :: 0 <= k < |path| ==> r[k] == m[path[k]]
  {
    if path == [] then [] else MapPath(m, path[..|path| - 1]) + [m[path[|path| - 1]]]
  }

  /** Whether the collapse keeps position `i`: the first element, and every
      element that differs from the one before it. */
  predicate Kept(xs: seq<string>, i: nat)
    requires i < |xs|
  {
    i == 0 || xs[i] != xs[i - 1]
  }

  /** `[p for i, p in enumerate(xs) if i == 0 or p != xs[i-1]]`. */
  function Collapse(xs: seq<string>): (r: seq<string>)
    ensures |r| <= |xs|
    ensures xs != [] ==> r != [] && r[|r| - 1] == xs[|xs| - 1]
    ensures xs != [] ==> r[0] == xs[0]
  {
    if xs == [] then []
    else Collapse(xs[..|xs| - 1]) + (if Kept(xs, |xs| - 1) then [xs[|xs| - 1]] else [])
  }

  /** `[p for p in xs if p != 'SIL']`. */
  function RemoveSilence(xs: seq<string>): (r: seq<string>)
    ensures |r| <= |xs|
  {
    if xs == [] then []
    else RemoveSilence(xs[..|xs| - 1]) + (if xs[|xs| - 1] != Silence then [xs[|xs| - 1]] else [])
  }

  /** `" ".join(xs)`. */
  function JoinSpaces(xs: seq<string>): string
  {
    if xs == [] then ""
    else if |xs| == 1 then xs[0]
    else JoinSpaces(xs[..|xs| - 1]) + " " + xs[|xs| - 1]
  }

  /** `s.split(" ")`, reading the text back into its tokens. */
  function SplitSpaces(s: string): (r: seq<string>)
    ensures |r| >= 1
  {
    if s == [] then [""]
    else
      var init := SplitSpaces(s[..|s| - 1]);
      var c := s[|s| - 1];
      if c == ' ' then init + [""]
      else init[..|init| - 1] + [init[|init| - 1] + [c]]
  }

  /** The tokens of the recognised text: collapse, then drop silence. */
  function FinalTokens(phonemes: seq<string>): seq<string>
  {
    RemoveSilence(Collapse(phonemes))
  }

  /** Every state on the path has a phoneme. */
  predicate AllMapped(m: map<int, string>, path: seq<int>)
  {
    forall k :: 0 <= k < |path| ==> path[k] in m
  }

  /** A non-empty two-dimensional array. */
  predicate Shaped(mfccs: Features)
  {
    mfccs.NdArray? && |mfccs.shape| == 2 && mfccs.shape[0] > 0
  }

  /** `decode_sequence(mfccs)`. `model` is the global `hmm_model`;
      `viterbi` is what `hmm_model.viterbi_decode(mfccs)` returns, `None`
      standing for an exception; a state missing from `index_map` raises a
      KeyError, caught by the same handler. */
  function DecodeSequence(model: Option<HmmModel>, mfccs: Features, viterbi: Option<seq<int>>): (text: string)
  {
    if model.None? then HmmInitError
    else if !Shaped(mfccs) then ""
    else if mfccs.shape[1] != model.value.mfccDim then MfccDimError
    else match viterbi
      case None => DecodingError
      case Some(path) =>
        if !AllMapped(model.value.indexMap, path) then DecodingError
        else
          var phonemes := MapPath(model.value.indexMap, path);
          if phonemes == [] then "" else JoinSpaces(FinalTokens(phonemes))
  }

  // ---------------------------------------------------------------------
  // Properties of the collapse
  // ---------------------------------------------------------------------

  ghost predicate NoAdjacentDuplicates(xs: seq<string>)
  {
    forall i :: 0 < i < |xs| ==> xs[i] != xs[i - 1]
  }

  lemma {:induction false} CollapseHasNoAdjacentDuplicates(xs: seq<string>)
    ensures NoAdjacentDuplicates(Collapse(xs))
  {
    if xs != [] {
      var init := xs[..|xs| - 1];
      CollapseHasNoAdjacentDuplicates(init);
      var c := Collapse(init);
      if Kept(xs, |xs| - 1) && c != [] {
        assert c[|c| - 1] == init[|init| - 1] == xs[|xs| - 2];
      }
    }
  }

  /** The collapse changes nothing on a list without adjacent duplicates. */
  lemma {:induction false} CollapseIdentity(xs: seq<string>)
    requires NoAdjacentDuplicates(xs)
    ensures Collapse(xs) == xs
  {
    if xs != [] {
      var init := xs[..|xs| - 1];
      assert NoAdjacentDuplicates(init);
      CollapseIdentity(init);
      assert init + [xs[|xs| - 1]] == xs;
    }
  }

  lemma CollapseIdempotent(xs: seq<string>)
    ensures Collapse(Collapse(xs)) == Collapse(xs)
  {
    CollapseHasNoAdjacentDuplicates(xs);
    CollapseIdentity(Collapse(xs));
  }

  // ---------------------------------------------------------------------
  // Order-preserving subsequences
  // ---------------------------------------------------------------------

  /** `f` picks, in increasing order, positions of `b` holding `a`. */
  ghost predicate Embeds(a: seq<string>, b: seq<string>, f: seq<nat>)
  {
    && |f| == |a|
    && (forall k :: 0 <= k < |f| ==> f[k] < |b| && b[f[k]] == a[k])
    && (forall k :: 0 < k < |f| ==> f[k - 1] < f[k])
  }

  ghost predicate IsSubsequence(a: seq<string>, b: seq<string>)
  {
    exists f :: Embeds(a, b, f)
  }

  lemma {:induction false} CollapseEmbeds(xs: seq<string>) returns (f: seq<nat>)
    ensures Embeds(Collapse(xs), xs, f)
  {
    if xs == [] {
      f := [];
    } else {
      var init := xs[..|xs| - 1];
      var g := CollapseEmbeds(init);
      if Kept(xs, |xs| - 1) {
        f := g + [|xs| - 1];
        assert Collapse(xs) == Collapse(init) + [xs[|xs| - 1]];
        assert g != [] ==> g[|g| - 1] < |init|;
      } else {
        f := g;
        assert Collapse(xs) == Collapse(init);
        assert forall k :: 0 <= k < |g| ==> xs[g[k]] == init[g[k]];
      }
    }
  }

  lemma {:induction false} RemoveSilenceEmbeds(xs: seq<string>) returns (f: seq<nat>)
    ensures Embeds(RemoveSilence(xs), xs, f)
  {
    if xs == [] {
      f := [];
    } else {
      var init := xs[..|xs| - 1];
      var g := RemoveSilenceEmbeds(init);
      f := if xs[|xs| - 1] != Silence then g + [|xs| - 1] else g;
    }
  }

  lemma EmbedsTransitive(a: seq<string>, b: seq<string>, c: seq<string>, f: seq<nat>, g: seq<nat>) returns (h: seq<nat>)
    requires Embeds(a, b, f) && Embeds(b, c, g)
    ensures Embeds(a, c, h)
  {
    h := seq(|f|, k requires 0 <= k < |f| => g[f[k]]);
    forall k | 0 < k < |h| ensures h[k - 1] < h[k] {
      EmbedsMonotone(g, f[k - 1], f[k]);
    }
  }

  /** An increasing index sequence keeps order between any two positions. */
  lemma {:induction false} EmbedsMonotone(g: seq<nat>, i: nat, j: nat)
    requires forall k :: 0 < k < |g| ==> g[k - 1] < g[k]
    requires i < j < |g|
    ensures g[i] < g[j]
    decreases j - i
  {
    if i + 1 < j {
      EmbedsMonotone(g, i + 1, j);
    }
  }

  lemma {:induction false} RemoveSilenceHasNoSilence(xs: seq<string>)
    ensures Silence !in RemoveSilence(xs)
  {
    if xs != [] {
      RemoveSilenceHasNoSilence(xs[..|xs| - 1]);
    }
  }

  /** The final tokens contain no silence and appear, in order, in the
      mapped path. */
  lemma FinalTokensProperties(phonemes: seq<string>)
    ensures Silence !in FinalTokens(phonemes)
    ensures IsSubsequence(FinalTokens(phonemes), phonemes)
  {
    RemoveSilenceHasNoSilence(Collapse(phonemes));
    var f := CollapseEmbeds(phonemes);
    var g := RemoveSilenceEmbeds(Collapse(phonemes));
    var h := EmbedsTransitive(FinalTokens(phonemes), Collapse(phonemes), phonemes, g, f);
  }

  /** Collapse runs before silence is removed, so a phoneme repeated across
      a silence is kept twice. */
  lemma RepeatAcrossSilence(p: string)
    requires p != Silence
    ensures FinalTokens([p, Silence, p]) == [p, p]
    ensures JoinSpaces(FinalTokens([p, Silence, p])) == p + " " + p
  {
    assert [p, Silence, p][..2] == [p, Silence];
    assert [p, Silence][..1] == [p];
    assert Collapse([p]) == [p];
    assert Collapse([p, Silence, p]) == [p, Silence, p];
    assert [p, Silence] == [p] + [Silence];
    assert RemoveSilence([p]) == [p];
    assert RemoveSilence([p, Silence]) == [p];
    assert [p, p][..1] == [p];
  }

  // ---------------------------------------------------------------------
  // Joining and splitting
  // ---------------------------------------------------------------------

  lemma {:induction false} JoinAppendChar(xs: seq<string>, c: char)
    requires xs != []
    ensures JoinSpaces(xs[..|xs| - 1] + [xs[|xs| - 1] + [c]]) == JoinSpaces(xs) + [c]
  {
    var ys := xs[..|xs| - 1] + [xs[|xs| - 1] + [c]];
    assert ys[..|ys| - 1] == xs[..|xs| - 1];
  }

  /** Splitting and joining again gives back any text. */
  lemma {:induction false} JoinSplit(s: string)
    ensures JoinSpaces(SplitSpaces(s)) == s
  {
    if s != [] {
      var init := SplitSpaces(s[..|s| - 1]);
      JoinSplit(s[..|s| - 1]);
      var c := s[|s| - 1];
      if c == ' ' {
        assert (init + [""])[..|init|] == init;
      } else {
        JoinAppendChar(init, c);
      }
      assert s[..|s| - 1] + [c] == s;
    }
  }

  ghost predicate HasNoSpace(t: string)
  {
    forall i :: 0 <= i < |t| ==> t[i] != ' '
  }

  lemma {:induction false} SplitAppendWord(a: string, t: string)
    requires HasNoSpace(t)
    ensures SplitSpaces(a + " " + t) == SplitSpaces(a) + [t]
    decreases |t|
  {
    var s := a + " " + t;
    if t == [] {
      assert s[..|s| - 1] == a;
    } else {
      var t' := t[..|t| - 1];
      assert s[..|s| - 1] == a + " " + t';
      SplitAppendWord(a, t');
      assert t' + [t[|t| - 1]] == t;
    }
  }

  lemma {:induction false} SplitWord(t: string)
    requires HasNoSpace(t)
    ensures SplitSpaces(t) == [t]
    decreases |t|
  {
    if t != [] {
      var t' := t[..|t| - 1];
      SplitWord(t');
      assert t' + [t[|t| - 1]] == t;
    }
  }

  /** Joining tokens that hold no space and splitting the text again gives
      back the tokens, so the recognised text determines its phonemes. */
  lemma {:induction false} SplitJoin(xs: seq<string>)
    requires xs != []
    requires forall k :: 0 <= k < |xs| ==> HasNoSpace(xs[k])
    ensures SplitSpaces(JoinSpaces(xs)) == xs
  {
    if |xs| == 1 {
      SplitWord(xs[0]);
    } else {
      var init := xs[..|xs| - 1];
      SplitJoin(init);
      SplitAppendWord(JoinSpaces(init), xs[|xs| - 1]);
      assert init + [xs[|xs| - 1]] == xs;
    }
  }

  // ---------------------------------------------------------------------
  // decode_sequence
  // ---------------------------------------------------------------------

  /** The guards, in the order the code tests them. */
  lemma DecodeGuards(model: Option<HmmModel>, mfccs: Features, viterbi: Option<seq<int>>)
    ensures model.None? ==> DecodeSequence(model, mfccs, viterbi) == HmmInitError
    ensures model.Some? && (mfccs == NotAnArray || |mfccs.shape| != 2 || mfccs.shape[0] == 0) ==>
      DecodeSequence(model, mfccs, viterbi) == ""
    ensures model.Some? && Shaped(mfccs) && mfccs.shape[1] != model.value.mfccDim ==>
      DecodeSequence(model, mfccs, viterbi) == MfccDimError
    ensures model.Some? && Shaped(mfccs) && mfccs.shape[1] == model.value.mfccDim ==>
      (viterbi.None? || !AllMapped(model.value.indexMap, viterbi.value)) ==>
      DecodeSequence(model, mfccs, viterbi) == DecodingError
  {
  }

  /** With the standard model, an input of the right shape and a Viterbi
      path whose every state is below 14, decoding succeeds: the text is
      the final tokens joined by spaces, it holds no silence, its tokens
      are an ordered subsequence of the path's phonemes, and it reads back
      as those tokens. */
  lemma StandardDecode(frames: nat, path: seq<int>)
    requires frames > 0
    requires forall k :: 0 <= k < |path| ==> 0 <= path[k] < StandardModel.numStates
    ensures AllMapped(IndexMap, path)
    ensures var text := DecodeSequence(Some(StandardModel), NdArray([frames, 13]), Some(path));
      var phonemes := MapPath(IndexMap, path);
      && text == JoinSpaces(FinalTokens(phonemes))
      && Silence !in FinalTokens(phonemes)
      && IsSubsequence(FinalTokens(phonemes), phonemes)
      && (FinalTokens(phonemes) != [] ==> SplitSpaces(text) == FinalTokens(phonemes))
  {
    StandardPhonemes(path);
    var phonemes := MapPath(IndexMap, path);
    DecodeMapped(StandardModel, NdArray([frames, 13]), path);
    FinalTokensProperties(phonemes);
    var tokens := FinalTokens(phonemes);
    if tokens != [] {
      var f :| Embeds(tokens, phonemes, f);
      EmbeddedHaveNoSpace(tokens, phonemes, f);
      SplitJoin(tokens);
    }
  }

  /** Past the guards, the text is the final tokens joined by spaces. */
  lemma DecodeMapped(model: HmmModel, mfccs: Features, path: seq<int>)
    requires Shaped(mfccs) && mfccs.shape[1] == model.mfccDim
    requires AllMapped(model.indexMap, path)
    ensures DecodeSequence(Some(model), mfccs, Some(path)) == JoinSpaces(FinalTokens(MapPath(model.indexMap, path)))
  {
  }

  /** Each state below 14 has a phoneme, and no phoneme holds a space. */
  lemma StandardPhonemes(path: seq<int>)
    requires forall k :: 0 <= k < |path| ==> 0 <= path[k] < |Phonemes|
    ensures AllMapped(IndexMap, path)
    ensures forall k :: 0 <= k < |path| ==> HasNoSpace(MapPath(IndexMap, path)[k])
  {
    forall k | 0 <= k < |path| ensures path[k] in IndexMap && HasNoSpace(IndexMap[path[k]]) {
      PhonemeHasNoSpace(path[k]);
    }
  }

  lemma PhonemeHasNoSpace(i: int)
    requires 0 <= i < |Phonemes|
    ensures i in IndexMap && IndexMap[i] == Phonemes[i]
    ensures HasNoSpace(Phonemes[i])
  {
  }

  lemma EmbeddedHaveNoSpace(a: seq<string>, b: seq<string>, f: seq<nat>)
    requires Embeds(a, b, f)
    requires forall k :: 0 <= k < |b| ==> HasNoSpace(b[k])
    ensures forall k :: 0 <= k < |a| ==> HasNoSpace(a[k])
  {
    forall k | 0 <= k < |a| ensures HasNoSpace(a[k]) {
      assert a[k] == b[f[k]];
    }
  }

  /** An empty path (the decoder's answer for an impossible observation)
      gives the empty text. */
  lemma EmptyPath(model: HmmModel, frames: nat)
    requires frames > 0
    ensures DecodeSequence(Some(model), NdArray([frames, model.mfccDim]), Some([])) == ""
  {
  }

  /** "AY SIL AY" through the standard model gives "AY AY". */
  lemma StandardRepeatAcrossSilence()
    ensures DecodeSequence(Some(StandardModel), NdArray([3, 13]), Some([2, 0, 2])) == "AY AY"
  {
    var phonemes := MapPath(IndexMap, [2, 0, 2]);
    assert phonemes == ["AY", "SIL", "AY"];
    RepeatAcrossSilence("AY");
  }
}
