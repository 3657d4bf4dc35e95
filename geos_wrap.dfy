/** The logic that the GEOS wrappers of PostGIS run around the GEOS calls:
    the option string of buffer(), the case normalisation of a relate
    pattern, the NULL-bitmap walk of the array union, the bounding-box
    short-circuits of the spatial predicates and the mapping of a
    point-in-polygon answer onto each predicate. GEOS itself, getbox2d_p and
    the point-in-polygon routines are inputs. */
module GeosWrap {
  import opened Wrappers

  // ---------------------------------------------------------------------
  // buffer(): the parameter string

  const ENDCAP_ROUND := 1
  const ENDCAP_FLAT := 2
  const ENDCAP_SQUARE := 3
  const JOIN_ROUND := 1
  const JOIN_MITRE := 2
  const JOIN_BEVEL := 3

  /** The four settings that buffer() hands to GEOS. */
  datatype BufferOpts = BufferOpts(quadsegs: int, endcap: int, join: int, mitreLimit: real)

  /** The defaults in force before any parameter: 8 quadrant segments, round
      caps, round joins, mitre limit 5. */
  const Defaults := BufferOpts(8, ENDCAP_ROUND, JOIN_ROUND, 5.0)

  /** A token that strtok(" ") can return: non-empty and without a space. */
  predicate Word(t: string) {
    |t| > 0 && forall k :: 0 <= k < |t| ==> t[k] != ' '
  }

  /** The length of the leading run of non-space characters. */
  function WordLen(s: string): (n: nat)
    ensures n <= |s|
    ensures forall k :: 0 <= k < n ==> s[k] != ' '
    ensures n < |s| ==> s[n] == ' '
  {
    if |s| == 0 || s[0] == ' ' then 0 else 1 + WordLen(s[1..])
  }

  /** The tokens strtok(s, " ") returns one after another: the maximal runs
      of non-space characters, in order. */
  function Tokens(s: string): (ts: seq<string>)
    decreases |s|
    ensures forall k :: 0 <= k < |ts| ==> Word(ts[k])
  {
    if |s| == 0 then []
    else if s[0] == ' ' then Tokens(s[1..])
    else [s[..WordLen(s)]] + Tokens(s[WordLen(s)..])
  }

  /** Tokens written out, each followed by one space. */
  function Spaced(ts: seq<string>): string {
    if |ts| == 0 then "" else ts[0] + " " + Spaced(ts[1..])
  }

  lemma {:induction false} WordLenOfWord(t: string, rest: string)
    requires Word(t)
    ensures WordLen(t + " " + rest) == |t|
    decreases |t|
  {
    var s := t + " " + rest;
    if |t| == 1 {
      assert s[1..] == " " + rest;
    } else {
      assert s[1..] == t[1..] + " " + rest;
      WordLenOfWord(t[1..], rest);
    }
  }

  /** strtok gives back exactly the words a space-separated string was made
      of. */
  lemma {:induction false} TokensOfSpaced(ts: seq<string>)
    requires forall k :: 0 <= k < |ts| ==> Word(ts[k])
    ensures Tokens(Spaced(ts)) == ts
  {
    if |ts| > 0 {
      TokensOfWordFirst(ts[0], Spaced(ts[1..]));
      TokensOfSpaced(ts[1..]);
    }
  }

  /** A word and a space at the front of a string give one token. */
  lemma TokensOfWordFirst(t: string, rest: string)
    requires Word(t)
    ensures Tokens(t + " " + rest) == [t] + Tokens(rest)
  {
    var s := t + " " + rest;
    WordLenOfWord(t, rest);
    assert s[..|t|] == t;
    var after := s[|t|..];
    assert after == " " + rest;
    assert after[1..] == rest;
  }

  /** The position of the first '=' (strchr), or |t| when there is none. */
  function FirstEq(t: string): (i: nat)
    ensures i <= |t|
    ensures i < |t| ==> t[i] == '='
    ensures forall k :: 0 <= k < i ==> t[k] != '='
  {
    if |t| == 0 || t[0] == '=' then 0 else 1 + FirstEq(t[1..])
  }

  /** What one well-formed token sets. The two numeric settings keep their
      text, which atof and atoi read later. */
  datatype Setting = EndCap(style: int) | Join(style: int) | MitreLimit(text: string) | QuadSegs(text: string)

  /** The fixed parts of the three lwerror texts. The join error reuses the
      end cap text and changes only the list of accepted values, and the
      parameter error's list lacks one closing quote; both as in the source. */
  const MISSING_VALUE := "Missing value for buffer parameter "
  const BAD_STYLE := "Invalid buffer end cap style: "
  const ENDCAP_ACCEPTS := " (accept: 'round', 'flat', 'butt' or 'square')"
  const JOIN_ACCEPTS := " (accept: 'round', 'mitre', 'miter'  or 'bevel')"
  const BAD_PARAM := "Invalid buffer parameter: "
  const PARAM_ACCEPTS := " (accept: 'endcap', 'join', 'mitre_limit', 'miter_limit and 'quad_segs')"

  /** The message for a token without a value; the '=' has not been cut
      yet, so the whole token is printed. */
  function MissingValue(t: string): string { MISSING_VALUE + t }

  function EndCapError(val: string): string { BAD_STYLE + val + ENDCAP_ACCEPTS }

  function JoinError(val: string): string { BAD_STYLE + val + JOIN_ACCEPTS }

  function ParamError(key: string): string { BAD_PARAM + key + PARAM_ACCEPTS }

  /** One "key=value" token. The key runs up to the first '=' and the value is
      everything after it. A token is accepted only with a non-empty value;
      each setting comes from its own key, and the numeric ones carry the
      value text unchanged. */
  function ParseToken(t: string): (r: Result<Setting>)
    ensures r.Ok? ==> FirstEq(t) + 1 < |t| && t[FirstEq(t)] == '='
    ensures r.Ok? && r.value.EndCap? ==> t[..FirstEq(t)] == "endcap" && ENDCAP_ROUND <= r.value.style <= ENDCAP_SQUARE
    ensures r.Ok? && r.value.Join? ==> t[..FirstEq(t)] == "join" && JOIN_ROUND <= r.value.style <= JOIN_BEVEL
    ensures r.Ok? && r.value.MitreLimit? ==>
      t[..FirstEq(t)] in {"mitre_limit", "miter_limit"} && r.value.text == t[FirstEq(t) + 1..]
    ensures r.Ok? && r.value.QuadSegs? ==> t[..FirstEq(t)] == "quad_segs" && r.value.text == t[FirstEq(t) + 1..]
    ensures FirstEq(t) + 1 >= |t| ==> r == Err(MissingValue(t))
    ensures FirstEq(t) + 1 < |t| && r.Err? ==>
      var key, val := t[..FirstEq(t)], t[FirstEq(t) + 1..];
      if key == "endcap" then r.msg == EndCapError(val)
      else if key == "join" then r.msg == JoinError(val)
      else r.msg == ParamError(key)
  {
    var e := FirstEq(t);
    if e + 1 >= |t| then Err(MissingValue(t))
    else
      var key := t[..e];
      var val := t[e + 1..];
      if key == "endcap" then
        if val == "round" then Ok(EndCap(ENDCAP_ROUND))
        else if val == "flat" || val == "butt" then Ok(EndCap(ENDCAP_FLAT))
        else if val == "square" then Ok(EndCap(ENDCAP_SQUARE))
        else Err(EndCapError(val))
      else if key == "join" then
        if val == "round" then Ok(Join(JOIN_ROUND))
        else if val == "mitre" || val == "miter" then Ok(Join(JOIN_MITRE))
        else if val == "bevel" then Ok(Join(JOIN_BEVEL))
        else Err(JoinError(val))
      else if key == "mitre_limit" || key == "miter_limit" then Ok(MitreLimit(val))
      else if key == "quad_segs" then Ok(QuadSegs(val))
      else Err(ParamError(key))
  }

  /** A bad join value is reported with the end cap text: the two messages
      agree up to the value and differ only in the accepted list. */
  lemma JoinErrorSaysEndCap(val: string)
    ensures JoinError(val)[..|BAD_STYLE|] == EndCapError(val)[..|BAD_STYLE|] == BAD_STYLE
    ensures JoinError(val) != EndCapError(val)
  {
    var n := |BAD_STYLE + val|;
    assert JoinError(val)[n + 20] == JOIN_ACCEPTS[20] == 'm';
    assert EndCapError(val)[n + 20] == ENDCAP_ACCEPTS[20] == 'f';
  }

  /** A key without '=' followed by '=' splits back into that key and
      value. */
  lemma SplitToken(key: string, val: string)
    requires forall k :: 0 <= k < |key| ==> key[k] != '='
    ensures FirstEq(key + "=" + val) == |key|
    ensures (key + "=" + val)[..|key|] == key
    ensures (key + "=" + val)[|key| + 1..] == val
  {
    var t := key + "=" + val;
    assert t[|key|] == '=';
    assert forall k :: 0 <= k < |key| ==> t[k] == key[k];
    assert t[..|key|] == key;
    assert t[|key| + 1..] == val;
  }

  /** The decision table of one token: which values each key accepts and
      that nothing after '=' is an error whatever the key. */
  lemma ParseTokenTable(key: string, val: string)
    requires forall k :: 0 <= k < |key| ==> key[k] != '='
    ensures val == "" ==> ParseToken(key + "=" + val) == Err(MissingValue(key + "="))
    ensures ParseToken(key + "=" + val).Ok? <==>
      (|val| > 0 &&
       ((key == "endcap" && val in ["round", "flat", "butt", "square"])
        || (key == "join" && val in ["round", "mitre", "miter", "bevel"])
        || key in ["mitre_limit", "miter_limit", "quad_segs"]))
    ensures key == "endcap" && val == "butt" ==> ParseToken(key + "=" + val) == Ok(EndCap(ENDCAP_FLAT))
    ensures key == "join" && val == "miter" ==> ParseToken(key + "=" + val) == Ok(Join(JOIN_MITRE))
    ensures key == "miter_limit" && |val| > 0 ==> ParseToken(key + "=" + val) == Ok(MitreLimit(val))
    ensures key == "quad_segs" && |val| > 0 ==> ParseToken(key + "=" + val) == Ok(QuadSegs(val))
  {
    SplitToken(key, val);
  }

  /** A token without '=' is an error. */
  lemma NoEqualsIsMissing(t: string)
    requires forall k :: 0 <= k < |t| ==> t[k] != '='
    ensures ParseToken(t) == Err(MissingValue(t))
  {
  }

  function Apply(o: BufferOpts, s: Setting, atof: string -> real, atoi: string -> int): BufferOpts {
    match s
    case EndCap(c) => o.(endcap := c)
    case Join(j) => o.(join := j)
    case MitreLimit(text) => o.(mitreLimit := atof(text))
    case QuadSegs(text) => o.(quadsegs := atoi(text))
  }

  /** The options after the tokens ts have been read in order from o; the
      first bad token stops the call with its error. */
  function Parse(o: BufferOpts, ts: seq<string>, atof: string -> real, atoi: string -> int): Result<BufferOpts>
    decreases |ts|
  {
    if |ts| == 0 then Ok(o)
    else
      match ParseToken(ts[0])
      case Err(m) => Err(m)
      case Ok(s) => Parse(Apply(o, s, atof, atoi), ts[1..], atof, atoi)
  }

  /** The parameter loop of buffer(): it walks the string the way strtok
      does, skipping runs of spaces and reading each word as a token.
      atof and atoi are the C library conversions. */
  method ParseBufferParams(params: string, atof: string -> real, atoi: string -> int)
    returns (r: Result<BufferOpts>)
    ensures r == Parse(Defaults, Tokens(params), atof, atoi)
    ensures Tokens(params) == [] ==> r == Ok(Defaults)
  {
    var opts := Defaults;
    var i := 0;
    while i < |params|
      invariant 0 <= i <= |params|
      invariant Parse(opts, Tokens(params[i..]), atof, atoi) == Parse(Defaults, Tokens(params), atof, atoi)
      decreases |params| - i
    {
      if params[i] == ' ' {
        TokensStep(params, i);
        i := i + 1;
      } else {
        var j := WordEnd(params, i);
        TokensWord(params, i, j);
        var setting := ParseToken(params[i..j]);
        if setting.Err? {
          return Err(setting.msg);
        }
        opts := Apply(opts, setting.value, atof, atoi);
        i := j;
      }
    }
    assert params[i..] == [];
    return Ok(opts);
  }

  /** The end of the word that starts at i: the next space or the end of the
      string. */
  method WordEnd(s: string, i: nat) returns (j: nat)
    requires i < |s|
    ensures j == i + WordLen(s[i..])
  {
    j := i;
    while j < |s| && s[j] != ' '
      invariant i <= j <= |s|
      invariant forall k :: i <= k < j ==> s[k] != ' '
      decreases |s| - j
    {
      j := j + 1;
    }
    WordLenIs(s[i..], j - i);
  }

  /** The word s[i..j] is the first token of s[i..] and the rest follow it. */
  lemma TokensWord(s: string, i: nat, j: nat)
    requires i < |s| && s[i] != ' ' && j == i + WordLen(s[i..])
    ensures j <= |s|
    ensures Tokens(s[i..])[0] == s[i..j]
    ensures Tokens(s[i..])[1..] == Tokens(s[j..])
    ensures |Tokens(s[i..])| > 0
  {
    TokensStep(s, i);
    var ts := Tokens(s[i..]);
    assert ts == [s[i..j]] + Tokens(s[j..]);
  }

  /** One step of strtok from position i: a space is skipped, a word is
      returned whole. */
  lemma TokensStep(s: string, i: nat)
    requires i < |s|
    ensures s[i] == ' ' ==> Tokens(s[i..]) == Tokens(s[i + 1..])
    ensures s[i] != ' ' ==>
      Tokens(s[i..]) == [s[i..i + WordLen(s[i..])]] + Tokens(s[i + WordLen(s[i..])..])
  {
    var t := s[i..];
    assert t[1..] == s[i + 1..];
    var n := WordLen(t);
    assert t[..n] == s[i..i + n];
    assert t[n..] == s[i + n..];
  }

  lemma {:induction false} WordLenIs(s: string, n: nat)
    requires n <= |s|
    requires forall k :: 0 <= k < n ==> s[k] != ' '
    requires n == |s| || s[n] == ' '
    ensures WordLen(s) == n
    decreases n
  {
    if n > 0 {
      WordLenIs(s[1..], n - 1);
    }
  }

  /** Reading one more token: the options so far, then that token applied. */
  lemma {:induction false} ParseSnoc(o: BufferOpts, ts: seq<string>, t: string, atof: string -> real, atoi: string -> int)
    ensures Parse(o, ts + [t], atof, atoi) ==
      match Parse(o, ts, atof, atoi)
      case Err(m) => Err(m)
      case Ok(p) =>
        match ParseToken(t)
        case Err(m) => Err(m)
        case Ok(s) => Ok(Apply(p, s, atof, atoi))
    decreases |ts|
  {
    if |ts| == 0 {
      assert ts + [t] == [t];
      assert [t][1..] == [];
    } else {
      assert (ts + [t])[1..] == ts[1..] + [t];
      match ParseToken(ts[0])
      case Err(m) =>
      case Ok(s) => ParseSnoc(Apply(o, s, atof, atoi), ts[1..], t, atof, atoi);
    }
  }

  /** The read fails exactly when one of the tokens is bad. */
  lemma {:induction false} ParseFailsIff(o: BufferOpts, ts: seq<string>, atof: string -> real, atoi: string -> int)
    ensures Parse(o, ts, atof, atoi).Err? <==> exists k :: 0 <= k < |ts| && ParseToken(ts[k]).Err?
    decreases |ts|
  {
    if |ts| > 0 {
      match ParseToken(ts[0])
      case Err(m) =>
      case Ok(s) =>
        ParseFailsIff(Apply(o, s, atof, atoi), ts[1..], atof, atoi);
        if exists k :: 0 <= k < |ts| && ParseToken(ts[k]).Err? {
          var k :| 0 <= k < |ts| && ParseToken(ts[k]).Err?;
          assert ts[1..][k - 1] == ts[k];
        }
        if exists k :: 0 <= k < |ts[1..]| && ParseToken(ts[1..][k]).Err? {
          var k :| 0 <= k < |ts[1..]| && ParseToken(ts[1..][k]).Err?;
          assert ts[k + 1] == ts[1..][k];
        }
    }
  }

  /** A later end-cap token overrides whatever came before it, and touches
      nothing else. */
  lemma LaterEndCapWins(o: BufferOpts, ts: seq<string>, t: string, c: int, atof: string -> real, atoi: string -> int)
    requires Parse(o, ts, atof, atoi).Ok?
    requires ParseToken(t) == Ok(EndCap(c))
    ensures Parse(o, ts + [t], atof, atoi) == Ok(Parse(o, ts, atof, atoi).value.(endcap := c))
  {
    ParseSnoc(o, ts, t, atof, atoi);
  }

  predicate SetsEndCap(t: string) {
    ParseToken(t).Ok? && ParseToken(t).value.EndCap?
  }

  /** Without an end-cap token the end cap stays what it was. */
  lemma {:induction false} EndCapKept(o: BufferOpts, ts: seq<string>, atof: string -> real, atoi: string -> int)
    requires forall k :: 0 <= k < |ts| ==> !SetsEndCap(ts[k])
    requires Parse(o, ts, atof, atoi).Ok?
    ensures Parse(o, ts, atof, atoi).value.endcap == o.endcap
    decreases |ts|
  {
    if |ts| > 0 {
      assert !SetsEndCap(ts[0]);
      match ParseToken(ts[0])
      case Ok(s) =>
        assert forall k :: 0 <= k < |ts[1..]| ==> ts[1..][k] == ts[k + 1];
        EndCapKept(Apply(o, s, atof, atoi), ts[1..], atof, atoi);
    }
  }

  // ---------------------------------------------------------------------
  // relate_pattern(): upper-casing the pattern

  function Upcased(c: char): char {
    if c == 't' then 'T' else if c == 'f' then 'F' else c
  }

  function NormalisedPattern(s: string): string {
    seq(|s|, k requires 0 <= k < |s| => Upcased(s[k]))
  }

  /** The loop of relate_pattern over the pattern's characters. */
  method NormalisePattern(patt: array<char>)
    modifies patt
    ensures patt[..] == NormalisedPattern(old(patt[..]))
  {
    var i := 0;
    while i < patt.Length
      invariant 0 <= i <= patt.Length
      invariant forall k :: 0 <= k < i ==> patt[k] == Upcased(old(patt[k]))
      invariant forall k :: i <= k < patt.Length ==> patt[k] == old(patt[k])
    {
      if patt[i] == 't' {
        patt[i] := 'T';
      }
      if patt[i] == 'f' {
        patt[i] := 'F';
      }
      i := i + 1;
    }
  }

  /** The normalised pattern has the same length, holds no lower-case 't' or
      'f', changes no other character, and normalising again changes
      nothing. */
  lemma NormalisedPatternProperties(s: string)
    ensures |NormalisedPattern(s)| == |s|
    ensures forall k :: 0 <= k < |s| ==> NormalisedPattern(s)[k] != 't' && NormalisedPattern(s)[k] != 'f'
    ensures forall k :: 0 <= k < |s| && s[k] != 't' && s[k] != 'f' ==> NormalisedPattern(s)[k] == s[k]
    ensures forall k :: 0 <= k < |s| && s[k] == 't' ==> NormalisedPattern(s)[k] == 'T'
    ensures forall k :: 0 <= k < |s| && s[k] == 'f' ==> NormalisedPattern(s)[k] == 'F'
    ensures NormalisedPattern(NormalisedPattern(s)) == NormalisedPattern(s)
  {
  }

  // ---------------------------------------------------------------------
  // pgis_union_geometry_array(): NULL bitmap and union plan

  const POINTTYPE := 1
  const POLYGONTYPE := 3
  const MULTIPOLYGONTYPE := 6
  const COLLECTIONTYPE := 7

  /** The bit of a bitmap byte that stands for position k of its group of
      eight. */
  function Mask(k: nat): bv16
    requires k < 8
  {
    (1 as bv16) << k
  }

  /** Element i is there (not NULL): there is no bitmap, or bit i mod 8 of
      byte i / 8 is set. */
  predicate Present(bitmap: Option<seq<bv8>>, i: nat)
    requires bitmap.Some? ==> i / 8 < |bitmap.value|
  {
    bitmap.None? || (bitmap.value[i / 8] as bv16) & Mask(i % 8) != 0
  }

  /** PostgreSQL's array layout: a bitmap has a bit for every element. */
  predicate Spans(bitmap: Option<seq<bv8>>, n: nat) {
    bitmap.Some? ==> n <= 8 * |bitmap.value|
  }

  /** Which of the first n elements are present. */
  function Flags(bitmap: Option<seq<bv8>>, n: nat): (flags: seq<bool>)
    requires Spans(bitmap, n)
    ensures |flags| == n
  {
    seq(n, i requires 0 <= i < n => Present(bitmap, i))
  }

  /** Moving the bitmap cursor (byte p, bit mask) from element i to i + 1:
      the mask moves up one bit and, past the eighth, back to the first bit
      of the next byte. */
  method AdvanceBitmap(i: nat, p: nat, mask: bv16) returns (p': nat, mask': bv16)
    requires p == i / 8 && mask == Mask(i % 8)
    ensures p' == (i + 1) / 8 && mask' == Mask((i + 1) % 8)
  {
    mask' := mask << 1;
    p' := p;
    MaskStep(i % 8);
    if mask' == 0x100 {
      p' := p' + 1;
      mask' := 1;
    }
  }

  lemma MaskStep(k: nat)
    requires k < 8
    ensures k < 7 ==> Mask(k) << 1 == Mask(k + 1) && Mask(k + 1) != 0x100
    ensures k == 7 ==> Mask(k) << 1 == 0x100 && Mask(0) == 1
  {
    if k == 0 {
    } else if k == 1 {
    } else if k == 2 {
    } else if k == 3 {
    } else if k == 4 {
    } else if k == 5 {
    } else if k == 6 {
    } else {
    }
  }

  /** The NULL-bitmap walk of each pass of pgis_union_geometry_array: a byte
      pointer and a one-bit mask that is shifted left per element and wraps
      to the next byte after 0x80. */
  method NullFlags(bitmap: Option<seq<bv8>>, n: nat) returns (flags: seq<bool>)
    requires Spans(bitmap, n)
    ensures flags == Flags(bitmap, n)
  {
    flags := [];
    var p: nat, mask: bv16 := 0, 1;
    var i := 0;
    while i < n
      invariant 0 <= i <= n
      invariant bitmap.Some? ==> p == i / 8 && mask == Mask(i % 8)
      invariant |flags| == i
      invariant forall k :: 0 <= k < i ==> flags[k] == Present(bitmap, k)
    {
      var present := bitmap.None? || (bitmap.value[p] as bv16) & mask != 0;
      flags := flags + [present];
      if bitmap.Some? {
        p, mask := AdvanceBitmap(i, p, mask);
      }
      i := i + 1;
    }
  }

  /** The positions below n that hold a value, in increasing order. */
  function PresentIndices(flags: seq<bool>, n: nat): seq<nat>
    requires n <= |flags|
  {
    if n == 0 then []
    else PresentIndices(flags, n - 1) + (if flags[n - 1] then [n - 1] else [])
  }

  /** The positions listed are exactly the present ones below n, each once
      and in increasing order. */
  lemma {:induction false} PresentIndicesIff(bitmap: Option<seq<bv8>>, n: nat)
    requires Spans(bitmap, n)
    ensures forall k :: 0 <= k < |PresentIndices(Flags(bitmap, n), n)| ==>
      PresentIndices(Flags(bitmap, n), n)[k] < n && Present(bitmap, PresentIndices(Flags(bitmap, n), n)[k])
    ensures forall i: nat :: i < n && Present(bitmap, i) ==> i in PresentIndices(Flags(bitmap, n), n)
    ensures forall k, l :: 0 <= k < l < |PresentIndices(Flags(bitmap, n), n)| ==>
      PresentIndices(Flags(bitmap, n), n)[k] < PresentIndices(Flags(bitmap, n), n)[l]
  {
    IndicesIff(Flags(bitmap, n), n);
  }

  lemma {:induction false} IndicesIff(flags: seq<bool>, n: nat)
    requires n <= |flags|
    ensures forall k :: 0 <= k < |PresentIndices(flags, n)| ==>
      PresentIndices(flags, n)[k] < n && flags[PresentIndices(flags, n)[k]]
    ensures forall i: nat :: i < n && flags[i] ==> i in PresentIndices(flags, n)
    ensures forall k, l :: 0 <= k < l < |PresentIndices(flags, n)| ==>
      PresentIndices(flags, n)[k] < PresentIndices(flags, n)[l]
  {
    if n > 0 {
      IndicesIff(flags, n - 1);
    }
  }

  /** One array element as the union sees it: SRID, Z flag, type code and,
      for a multipolygon, the number of its polygons. */
  datatype Member = Member(srid: int, hasz: bool, typ: int, nparts: nat)

  /** The present elements among the first n, in array order. */
  function PresentMembers(elems: seq<Member>, flags: seq<bool>, n: nat): seq<Member>
    requires n <= |elems| && n <= |flags|
  {
    if n == 0 then []
    else PresentMembers(elems, flags, n - 1) + (if flags[n - 1] then [elems[n - 1]] else [])
  }

  /** PresentMembers picks the elements at PresentIndices. */
  lemma {:induction false} PresentMembersAt(elems: seq<Member>, flags: seq<bool>, n: nat)
    requires n <= |elems| && n <= |flags|
    ensures |PresentMembers(elems, flags, n)| == |PresentIndices(flags, n)|
    ensures forall k :: 0 <= k < |PresentIndices(flags, n)| ==>
      PresentIndices(flags, n)[k] < |elems| &&
      PresentMembers(elems, flags, n)[k] == elems[PresentIndices(flags, n)[k]]
  {
    if n > 0 {
      PresentMembersAt(elems, flags, n - 1);
      IndicesIff(flags, n);
    }
  }

  lemma {:induction false} PresentMembersPrefix(elems: seq<Member>, flags: seq<bool>, i: nat, n: nat)
    requires i <= n <= |elems| && n <= |flags|
    ensures |PresentMembers(elems, flags, i)| <= |PresentMembers(elems, flags, n)|
    ensures PresentMembers(elems, flags, n)[..|PresentMembers(elems, flags, i)|] == PresentMembers(elems, flags, i)
    decreases n - i
  {
    if i < n {
      PresentMembersPrefix(elems, flags, i, n - 1);
      var a := PresentMembers(elems, flags, n - 1);
      var b := PresentMembers(elems, flags, n);
      assert b[..|a|] == a;
      assert b[..|PresentMembers(elems, flags, i)|] == a[..|PresentMembers(elems, flags, i)|];
    }
  }

  /** An element whose SRID differs from the first present one's makes the
      whole array's SRIDs disagree. */
  lemma MismatchSpreads(elems: seq<Member>, flags: seq<bool>, i: nat, n: nat)
    requires i < n <= |elems| && n <= |flags| && flags[i]
    requires |PresentMembers(elems, flags, i)| > 0
    requires elems[i].srid != PresentMembers(elems, flags, i)[0].srid
    ensures !SridsAgree(PresentMembers(elems, flags, n))
  {
    var before := PresentMembers(elems, flags, i);
    var after := before + [elems[i]];
    assert PresentMembers(elems, flags, i + 1) == after;
    PresentMembersPrefix(elems, flags, i + 1, n);
    var whole := PresentMembers(elems, flags, n);
    assert whole[..|after|] == after;
    assert whole[|before|] == after[|before|] == elems[i];
    assert whole[0] == after[0] == before[0];
    assert whole[|before|].srid != whole[0].srid;
  }

  predicate Polygonal(m: Member) {
    m.typ == POLYGONTYPE || m.typ == MULTIPOLYGONTYPE
  }

  predicate AllPolygonal(ps: seq<Member>) {
    forall k :: 0 <= k < |ps| ==> Polygonal(ps[k])
  }

  predicate SridsAgree(ps: seq<Member>) {
    forall k :: 0 <= k < |ps| ==> ps[k].srid == ps[0].srid
  }

  /** What appending a present element does to the first element, the
      length and the Z flag of the present list. */
  lemma MemberSnoc(ps: seq<Member>, m: Member)
    ensures |ps + [m]| == |ps| + 1
    ensures (ps + [m])[0] == if |ps| > 0 then ps[0] else m
    ensures (ps + [m])[..|ps|] == ps
    ensures AnyZ(ps + [m]) <==> AnyZ(ps) || m.hasz
  {
    assert (ps + [m])[..|ps|] == ps;
  }

  lemma SridsAgreeSnoc(ps: seq<Member>, m: Member)
    requires SridsAgree(ps) && (|ps| > 0 ==> m.srid == ps[0].srid)
    ensures SridsAgree(ps + [m])
  {
    assert forall k :: 0 <= k < |ps| ==> (ps + [m])[k] == ps[k];
  }

  /** Some element has a Z coordinate. */
  predicate AnyZ(ps: seq<Member>) {
    |ps| > 0 && (AnyZ(ps[..|ps| - 1]) || ps[|ps| - 1].hasz)
  }

  lemma {:induction false} AnyZIff(ps: seq<Member>)
    ensures AnyZ(ps) <==> exists k :: 0 <= k < |ps| && ps[k].hasz
  {
    if |ps| > 0 {
      var init := ps[..|ps| - 1];
      AnyZIff(init);
      if exists k :: 0 <= k < |init| && init[k].hasz {
        var k :| 0 <= k < |init| && init[k].hasz;
        assert ps[k] == init[k];
      }
      if exists k :: 0 <= k < |ps| && ps[k].hasz {
        var k :| 0 <= k < |ps| && ps[k].hasz;
        if k < |init| {
          assert init[k] == ps[k];
        }
      }
    }
  }

  /** How many GEOS polygons the cascaded path builds: one per polygon and
      one per part of a multipolygon. */
  function PolygonCount(ps: seq<Member>): nat {
    if |ps| == 0 then 0
    else
      var m := ps[|ps| - 1];
      PolygonCount(ps[..|ps| - 1]) + (if m.typ == POLYGONTYPE then 1 else if m.typ == MULTIPOLYGONTYPE then m.nparts else 0)
  }

  /** The result of the union: the one-element shortcut, the cascaded
      polygon union, or the pairwise union of every present element. */
  datatype Union =
    | Element(m: Member)
    | Cascaded(srid: int, is3d: bool, polygons: nat)
    | Incremental(srid: int, is3d: bool, members: nat)

  /** When the union of two or more elements is an error: an SRID mismatch
      between present elements, or a failed GEOSUnion on the incremental
      path (which needs two present elements to call it). */
  predicate UnionFails(ps: seq<Member>, geosOk: bool) {
    !SridsAgree(ps) || (!AllPolygonal(ps) && |ps| >= 2 && !geosOk)
  }

  /** The value of a union of two or more elements that does not fail;
      None is SQL NULL. On the cascaded path the Z flag is the first present
      element's, on the incremental path it is set by any present element. */
  function UnionValue(ps: seq<Member>, geosOk: bool): Option<Union> {
    if AllPolygonal(ps) then
      if PolygonCount(ps) == 0 || !geosOk then None
      else Some(Cascaded(ps[0].srid, ps[0].hasz, PolygonCount(ps)))
    else if |ps| == 0 then None
    else Some(Incremental(ps[0].srid, AnyZ(ps), |ps|))
  }

  const SRID_MISMATCH := "Operation on mixed SRID geometries"
  const UNION_FAILED := "GEOS union() threw an error!"

  /** pgis_union_geometry_array over an array of n elements (elems holds a
      member for every position; those at NULL positions are ignored).
      geosOk says whether the GEOS calls succeed. None is SQL NULL. */
  method UnionArray(elems: seq<Member>, bitmap: Option<seq<bv8>>, n: nat, geosOk: bool)
    returns (r: Result<Option<Union>>)
    requires n <= |elems| && Spans(bitmap, n)
    ensures n == 0 ==> r == Ok(None)
    ensures n == 1 ==> r == if Present(bitmap, 0) then Ok(Some(Element(elems[0]))) else Ok(None)
    ensures n >= 2 ==> (r.Err? <==> UnionFails(PresentMembers(elems, Flags(bitmap, n), n), geosOk))
    ensures n >= 2 && r.Ok? ==> r.value == UnionValue(PresentMembers(elems, Flags(bitmap, n), n), geosOk)
  {
    if n == 0 {
      return Ok(None);
    }
    if n == 1 {
      if bitmap.Some? && (bitmap.value[0] as bv16) & 1 == 0 {
        return Ok(None);
      }
      return Ok(Some(Element(elems[0])));
    }
    var flags := NullFlags(bitmap, n);
    var allpolys, srid, is3d, failed := FirstPass(elems, flags, n);
    if failed {
      return Err(SRID_MISMATCH);
    }
    if allpolys {
      r := CascadedPass(elems, flags, n, geosOk);
    } else {
      r := IncrementalPass(elems, flags, n, geosOk, is3d);
    }
  }

  /** The first pass: it records the first present element's SRID and Z
      flag, checks later SRIDs against it, and stops at the first element
      that is neither a polygon nor a multipolygon. */
  method FirstPass(elems: seq<Member>, flags: seq<bool>, n: nat)
    returns (allpolys: bool, srid: int, is3d: bool, failed: bool)
    requires n <= |elems| && n <= |flags|
    ensures failed ==> !SridsAgree(PresentMembers(elems, flags, n))
    ensures !failed ==> (allpolys <==> AllPolygonal(PresentMembers(elems, flags, n)))
    ensures !failed && !allpolys ==>
      |PresentMembers(elems, flags, n)| > 0 && is3d == PresentMembers(elems, flags, n)[0].hasz
    ensures !failed && allpolys ==> SridsAgree(PresentMembers(elems, flags, n))
  {
    srid, is3d, allpolys, failed := -1, false, true, false;
    var gotsrid := false;
    var i := 0;
    while i < n
      invariant 0 <= i <= n
      invariant gotsrid <==> |PresentMembers(elems, flags, i)| > 0
      invariant gotsrid ==> srid == PresentMembers(elems, flags, i)[0].srid && is3d == PresentMembers(elems, flags, i)[0].hasz
      invariant SridsAgree(PresentMembers(elems, flags, i))
      invariant AllPolygonal(PresentMembers(elems, flags, i))
    {
      ghost var before := PresentMembers(elems, flags, i);
      if flags[i] {
        var m := elems[i];
        assert PresentMembers(elems, flags, i + 1) == before + [m];
        if !gotsrid {
          srid, gotsrid, is3d := m.srid, true, m.hasz;
        } else if m.srid != srid {
          MismatchSpreads(elems, flags, i, n);
          return false, srid, is3d, true;
        }
        if !Polygonal(m) {
          PresentMembersPrefix(elems, flags, i + 1, n);
          ghost var whole := PresentMembers(elems, flags, n);
          assert whole[|before|] == m;
          assert whole[0] == (before + [m])[0];
          return false, srid, is3d, false;
        }
      }
      i := i + 1;
    }
  }

  /** The cascaded path: it counts the polygons it hands to GEOS, one per
      polygon and one per part of each multipolygon. */
  method CascadedPass(elems: seq<Member>, flags: seq<bool>, n: nat, geosOk: bool)
    returns (r: Result<Option<Union>>)
    requires n <= |elems| && n <= |flags|
    requires AllPolygonal(PresentMembers(elems, flags, n)) && SridsAgree(PresentMembers(elems, flags, n))
    ensures r == Ok(UnionValue(PresentMembers(elems, flags, n), geosOk))
  {
    var curgeom := 0;
    var srid, is3d, seen := -1, false, false;
    var i := 0;
    while i < n
      invariant 0 <= i <= n
      invariant curgeom == PolygonCount(PresentMembers(elems, flags, i))
      invariant seen <==> |PresentMembers(elems, flags, i)| > 0
      invariant seen ==>
        srid == PresentMembers(elems, flags, i)[0].srid && is3d == PresentMembers(elems, flags, i)[0].hasz
    {
      ghost var before := PresentMembers(elems, flags, i);
      if flags[i] {
        var m := elems[i];
        assert PresentMembers(elems, flags, i + 1) == before + [m];
        assert (before + [m])[..|before|] == before;
        if !seen {
          srid, is3d, seen := m.srid, m.hasz, true;
        }
        assert PolygonCount(before + [m]) == PolygonCount(before)
          + (if m.typ == POLYGONTYPE then 1 else if m.typ == MULTIPOLYGONTYPE then m.nparts else 0);
        if m.typ == POLYGONTYPE {
          curgeom := curgeom + 1;
        }
        if m.typ == MULTIPOLYGONTYPE {
          var j := 0;
          while j < m.nparts
            invariant 0 <= j <= m.nparts
            invariant curgeom == PolygonCount(before) + j
          {
            curgeom := curgeom + 1;
            j := j + 1;
          }
        }
      } else {
        assert PresentMembers(elems, flags, i + 1) == before;
      }
      i := i + 1;
    }
    if curgeom > 0 {
      if geosOk {
        return Ok(Some(Cascaded(srid, is3d, curgeom)));
      }
      return Ok(None);
    }
    return Ok(None);
  }

  /** The incremental path: it unions the present elements one at a time,
      checking each SRID against the first and turning on Z for any element
      that has it. firstZ is the Z flag the first pass recorded. */
  method IncrementalPass(elems: seq<Member>, flags: seq<bool>, n: nat, geosOk: bool, firstZ: bool)
    returns (r: Result<Option<Union>>)
    requires n <= |elems| && n <= |flags|
    requires !AllPolygonal(PresentMembers(elems, flags, n))
    requires |PresentMembers(elems, flags, n)| > 0 && firstZ == PresentMembers(elems, flags, n)[0].hasz
    ensures r.Err? <==> UnionFails(PresentMembers(elems, flags, n), geosOk)
    ensures r.Ok? ==> r.value == UnionValue(PresentMembers(elems, flags, n), geosOk)
  {
    ghost var whole := PresentMembers(elems, flags, n);
    var have := false;
    var count := 0;
    var srid := -1;
    var is3d := firstZ;
    var i := 0;
    while i < n
      invariant 0 <= i <= n
      invariant count == |PresentMembers(elems, flags, i)|
      invariant have <==> count > 0
      invariant have ==> srid == PresentMembers(elems, flags, i)[0].srid
      invariant is3d <==> firstZ || AnyZ(PresentMembers(elems, flags, i))
      invariant SridsAgree(PresentMembers(elems, flags, i))
      invariant count >= 2 ==> geosOk
    {
      ghost var before := PresentMembers(elems, flags, i);
      if flags[i] {
        var m := elems[i];
        assert PresentMembers(elems, flags, i + 1) == before + [m];
        MemberSnoc(before, m);
        if m.hasz {
          is3d := true;
        }
        if !have {
          have, srid := true, m.srid;
        } else {
          if m.srid != srid {
            MismatchSpreads(elems, flags, i, n);
            return Err(SRID_MISMATCH);
          }
          if !geosOk {
            PresentMembersPrefix(elems, flags, i + 1, n);
            return Err(UNION_FAILED);
          }
        }
        SridsAgreeSnoc(before, m);
        count := count + 1;
      } else {
        assert PresentMembers(elems, flags, i + 1) == before;
      }
      i := i + 1;
    }
    AnyZIff(whole);
    return Ok(Some(Incremental(srid, is3d, count)));
  }

  /** The cascaded path keeps only the first element's Z flag: a polygon
      with Z after a 2D one is united as 2D, while the incremental path
      would keep Z. */
  lemma CascadedTakesFirstZ()
    ensures var ps := [Member(4326, false, POLYGONTYPE, 0), Member(4326, true, POLYGONTYPE, 0)];
      UnionValue(ps, true) == Some(Cascaded(4326, false, 2)) && AnyZ(ps)
  {
    var ps := [Member(4326, false, POLYGONTYPE, 0), Member(4326, true, POLYGONTYPE, 0)];
    assert ps[..1] == [ps[0]];
    assert ps[..1][..0] == [];
    assert PolygonCount(ps[..1]) == 1;
    assert PolygonCount(ps) == 2;
    assert AllPolygonal(ps);
  }

  // ---------------------------------------------------------------------
  // Bounding-box short-circuits

  /** A 2D box as getbox2d_p fills it. */
  datatype Box2 = Box2(xmin: real, ymin: real, xmax: real, ymax: real)

  predicate Proper(b: Box2) {
    b.xmin <= b.xmax && b.ymin <= b.ymax
  }

  predicate InBox(b: Box2, x: real, y: real) {
    b.xmin <= x <= b.xmax && b.ymin <= y <= b.ymax
  }

  /** The predicates whose GEOS call is guarded by a box test. */
  datatype Pred =
    | Overlaps | Contains | ContainsProperly | Covers | Within | CoveredBy
    | Crosses | Intersects | Touches | Disjoint | Equals

  /** The boxes are apart on x or on y. */
  predicate Apart(b1: Box2, b2: Box2) {
    b2.xmax < b1.xmin || b2.xmin > b1.xmax || b2.ymax < b1.ymin || b2.ymin > b1.ymax
  }

  /** box inner is not inside box outer. */
  predicate Sticks(inner: Box2, outer: Box2) {
    inner.xmin < outer.xmin || inner.xmax > outer.xmax || inner.ymin < outer.ymin || inner.ymax > outer.ymax
  }

  /** The answer the predicate gives before GEOS is called, from the two
      boxes (None when a box is missing or the test does not fire). This is
      the intended test: every comparison is between box1 and box2. */
  function BoxShortcut(p: Pred, box1: Option<Box2>, box2: Option<Box2>): Option<bool> {
    if box1.None? || box2.None? then None
    else
      var b1 := box1.value;
      var b2 := box2.value;
      match p
      case Overlaps | Crosses | Intersects | Touches => if Apart(b1, b2) then Some(false) else None
      case Disjoint => if Apart(b1, b2) then Some(true) else None
      case Contains | ContainsProperly | Covers => if Sticks(b2, b1) then Some(false) else None
      case Within | CoveredBy => if Sticks(b1, b2) then Some(false) else None
      case Equals => if b1 != b2 then Some(false) else None
  }

  /** The short-circuits as the source writes them: overlaps and crosses
      compare box2.ymin with box2.ymax, and geomequals compares box2.ymin
      with itself. For every other predicate they are the intended tests,
      and when box2 is proper a written test that fires gives the intended
      answer. */
  function BoxShortcutAsWritten(p: Pred, box1: Option<Box2>, box2: Option<Box2>): (r: Option<bool>)
    ensures p !in {Overlaps, Crosses, Equals} ==> r == BoxShortcut(p, box1, box2)
    ensures r.Some? && box2.Some? && box2.value.ymin <= box2.value.ymax ==> r == BoxShortcut(p, box1, box2)
  {
    if box1.None? || box2.None? then None
    else
      var b1 := box1.value;
      var b2 := box2.value;
      match p
      case Overlaps | Crosses =>
        if b2.xmax < b1.xmin || b2.xmin > b1.xmax || b2.ymax < b1.ymin || b2.ymin > b2.ymax then Some(false)
        else None
      case Equals =>
        if b2.xmax != b1.xmax || b2.xmin != b1.xmin || b2.ymax != b1.ymax || b2.ymin != b2.ymin then Some(false)
        else None
      case _ => BoxShortcut(p, box1, box2)
  }

  /** Two proper boxes are apart exactly when no point lies in both. */
  lemma ApartIff(b1: Box2, b2: Box2)
    requires Proper(b1) && Proper(b2)
    ensures Apart(b1, b2) <==> !exists x: real, y: real :: InBox(b1, x, y) && InBox(b2, x, y)
  {
    if !Apart(b1, b2) {
      var x := if b1.xmin < b2.xmin then b2.xmin else b1.xmin;
      var y := if b1.ymin < b2.ymin then b2.ymin else b1.ymin;
      assert InBox(b1, x, y) && InBox(b2, x, y);
    }
  }

  /** A proper box sticks out of another exactly when one of its points lies
      outside the other. */
  lemma SticksIff(inner: Box2, outer: Box2)
    requires Proper(inner)
    ensures Sticks(inner, outer) <==> exists x: real, y: real :: InBox(inner, x, y) && !InBox(outer, x, y)
  {
    if Sticks(inner, outer) {
      if inner.xmin < outer.xmin || inner.ymin < outer.ymin {
        assert InBox(inner, inner.xmin, inner.ymin) && !InBox(outer, inner.xmin, inner.ymin);
      } else {
        assert InBox(inner, inner.xmax, inner.ymax) && !InBox(outer, inner.xmax, inner.ymax);
      }
    }
  }

  /** The box tests decide only what the boxes decide: a shared point for
      the overlap family and disjoint, containment for the containment
      family, and identity for equals. */
  lemma BoxShortcutMeaning(p: Pred, b1: Box2, b2: Box2)
    requires Proper(b1) && Proper(b2)
    ensures p in {Overlaps, Crosses, Intersects, Touches} ==>
      (BoxShortcut(p, Some(b1), Some(b2)) == Some(false) <==> !exists x: real, y: real :: InBox(b1, x, y) && InBox(b2, x, y))
    ensures p == Disjoint ==>
      (BoxShortcut(p, Some(b1), Some(b2)) == Some(true) <==> !exists x: real, y: real :: InBox(b1, x, y) && InBox(b2, x, y))
    ensures p in {Contains, ContainsProperly, Covers} ==>
      (BoxShortcut(p, Some(b1), Some(b2)) == Some(false) <==> exists x: real, y: real :: InBox(b2, x, y) && !InBox(b1, x, y))
    ensures p in {Within, CoveredBy} ==>
      (BoxShortcut(p, Some(b1), Some(b2)) == Some(false) <==> exists x: real, y: real :: InBox(b1, x, y) && !InBox(b2, x, y))
    ensures BoxShortcut(p, Some(b1), Some(b2)) != Some(p != Disjoint)
  {
    ApartIff(b1, b2);
    SticksIff(b2, b1);
    SticksIff(b1, b2);
  }

  /** Swapping the arguments turns within into contains and coveredby into
      covers; intersects, touches and disjoint do not care about order. */
  lemma BoxShortcutSwaps(box1: Option<Box2>, box2: Option<Box2>)
    ensures BoxShortcut(Within, box1, box2) == BoxShortcut(Contains, box2, box1)
    ensures BoxShortcut(CoveredBy, box1, box2) == BoxShortcut(Covers, box2, box1)
    ensures BoxShortcut(Intersects, box1, box2) == BoxShortcut(Intersects, box2, box1)
    ensures BoxShortcut(Touches, box1, box2) == BoxShortcut(Touches, box2, box1)
    ensures BoxShortcut(Disjoint, box1, box2) == BoxShortcut(Disjoint, box2, box1)
    ensures BoxShortcut(Equals, box1, box2) == BoxShortcut(Equals, box2, box1)
  {
  }

  /** disjoint fires exactly when intersects fires, with the opposite
      answer. */
  lemma DisjointMirrorsIntersects(box1: Option<Box2>, box2: Option<Box2>)
    ensures BoxShortcut(Disjoint, box1, box2).Some? <==> BoxShortcut(Intersects, box1, box2).Some?
    ensures BoxShortcut(Disjoint, box1, box2).Some? ==>
      BoxShortcut(Disjoint, box1, box2).value == !BoxShortcut(Intersects, box1, box2).value
  {
  }

  /** As written, the y-min test of overlaps and crosses never fires on a
      proper box2, and geomequals never looks at ymin at all. The written
      tests agree with the intended ones elsewhere. */
  lemma AsWrittenMissesYmin(p: Pred, b1: Box2, b2: Box2)
    requires Proper(b2)
    ensures p in {Overlaps, Crosses} ==>
      (BoxShortcutAsWritten(p, Some(b1), Some(b2)).Some? <==>
       b2.xmax < b1.xmin || b2.xmin > b1.xmax || b2.ymax < b1.ymin)
    ensures p == Equals ==>
      (BoxShortcutAsWritten(p, Some(b1), Some(b2)).Some? <==>
       b2.xmax != b1.xmax || b2.xmin != b1.xmin || b2.ymax != b1.ymax)
    ensures p !in {Overlaps, Crosses, Equals} ==>
      BoxShortcutAsWritten(p, Some(b1), Some(b2)) == BoxShortcut(p, Some(b1), Some(b2))
  {
  }

  /** Inputs that show the typos: box2 lies wholly above box1, yet overlaps
      and crosses go on to GEOS; the boxes differ only in ymin, yet
      geomequals goes on to GEOS. The intended tests answer at once. */
  lemma AsWrittenCounterexamples()
    ensures var b1, b2 := Box2(0.0, 0.0, 1.0, 1.0), Box2(0.0, 2.0, 1.0, 3.0);
      BoxShortcutAsWritten(Overlaps, Some(b1), Some(b2)) == None
      && BoxShortcut(Overlaps, Some(b1), Some(b2)) == Some(false)
      && BoxShortcutAsWritten(Crosses, Some(b1), Some(b2)) == None
      && BoxShortcut(Crosses, Some(b1), Some(b2)) == Some(false)
    ensures var b1, b2 := Box2(0.0, 0.0, 1.0, 1.0), Box2(0.0, 0.5, 1.0, 1.0);
      BoxShortcutAsWritten(Equals, Some(b1), Some(b2)) == None
      && BoxShortcut(Equals, Some(b1), Some(b2)) == Some(false)
  {
  }

  // ---------------------------------------------------------------------
  // Point-in-polygon shortcut

  predicate PolygonType(t: int) {
    t == POLYGONTYPE || t == MULTIPOLYGONTYPE
  }

  /** The answer from the point-in-polygon routines (pip: 1 inside, 0 on the
      boundary, -1 outside) when the types call for it; None when the
      predicate goes on to GEOS. */
  function PipShortcut(p: Pred, type1: int, type2: int, pip: int): Option<bool> {
    match p
    case Contains => if PolygonType(type1) && type2 == POINTTYPE then Some(pip == 1) else None
    case Covers => if PolygonType(type1) && type2 == POINTTYPE then Some(pip != -1) else None
    case Within => if PolygonType(type2) && type1 == POINTTYPE then Some(pip == 1) else None
    case CoveredBy => if PolygonType(type2) && type1 == POINTTYPE then Some(pip != -1) else None
    case Intersects =>
      if (type1 == POINTTYPE && PolygonType(type2)) || (type2 == POINTTYPE && PolygonType(type1)) then Some(pip != -1)
      else None
    case _ => None
  }

  /** What errorIfGeometryCollection raises, for either argument. */
  const COLLECTION_ARG := "Relate Operation called with a LWGEOMCOLLECTION type.  This is unsupported."

  /** The texts each predicate raises when GEOS returns 2. */
  const GEOS_OVERLAPS := "GEOS overlaps() threw an error!"
  const GEOS_CONTAINS := "GEOS contains() threw an error!"
  const GEOS_COVERS := "GEOS covers() threw an error!"
  const GEOS_WITHIN := "GEOS within() threw an error!"
  const GEOS_COVEREDBY := "GEOS coveredby() threw an error!"
  const GEOS_CROSSES := "GEOS crosses() threw an error!"
  const GEOS_INTERSECTS := "GEOS intersects() threw an error!"
  const GEOS_TOUCHES := "GEOS touches() threw an error!"
  const GEOS_DISJOINT := "GEOS disjoin() threw an error!"
  const GEOS_EQUALS := "GEOS equals() threw an error!"

  /** The error each predicate raises when GEOS returns 2; containsproperly
      reuses the contains text and disjoint's is misspelt, as in the source. */
  function GeosError(p: Pred): string {
    match p
    case Overlaps => GEOS_OVERLAPS
    case Contains => GEOS_CONTAINS
    case ContainsProperly => GEOS_CONTAINS
    case Covers => GEOS_COVERS
    case Within => GEOS_WITHIN
    case CoveredBy => GEOS_COVEREDBY
    case Crosses => GEOS_CROSSES
    case Intersects => GEOS_INTERSECTS
    case Touches => GEOS_TOUCHES
    case Disjoint => GEOS_DISJOINT
    case Equals => GEOS_EQUALS
  }

  /** The whole decision of a guarded predicate: a collection argument and
      differing SRIDs are refused first, then come the box test, the
      point-in-polygon shortcut and GEOS's own answer, where geos is None
      when GEOS returns 2. This is the corrected decision: it uses the
      intended box test BoxShortcut, not the one the source writes for
      overlaps, crosses and geomequals. The answer differs from GEOS's only
      through a shortcut, and a box test that fires wins over the
      point-in-polygon test. */
  function Decide(p: Pred, type1: int, type2: int, srid1: int, srid2: int,
                  box1: Option<Box2>, box2: Option<Box2>, pip: int, geos: Option<bool>): (r: Result<bool>)
    ensures r.Err? <==>
      type1 == COLLECTIONTYPE || type2 == COLLECTIONTYPE || srid1 != srid2
      || (BoxShortcut(p, box1, box2).None? && PipShortcut(p, type1, type2, pip).None? && geos.None?)
    ensures type1 == COLLECTIONTYPE || type2 == COLLECTIONTYPE ==> r == Err(COLLECTION_ARG)
    ensures type1 != COLLECTIONTYPE && type2 != COLLECTIONTYPE && srid1 != srid2 ==> r == Err(SRID_MISMATCH)
    ensures r.Err? && type1 != COLLECTIONTYPE && type2 != COLLECTIONTYPE && srid1 == srid2 ==> r.msg == GeosError(p)
    ensures r.Ok? && geos.Some? && r.value != geos.value ==>
      BoxShortcut(p, box1, box2).Some? || PipShortcut(p, type1, type2, pip).Some?
    ensures r.Ok? && BoxShortcut(p, box1, box2).Some? ==> r.value == BoxShortcut(p, box1, box2).value
    ensures r.Ok? && BoxShortcut(p, box1, box2).None? && PipShortcut(p, type1, type2, pip).Some? ==>
      r.value == PipShortcut(p, type1, type2, pip).value
  {
    if type1 == COLLECTIONTYPE || type2 == COLLECTIONTYPE then Err(COLLECTION_ARG)
    else if srid1 != srid2 then Err(SRID_MISMATCH)
    else
      match BoxShortcut(p, box1, box2)
      case Some(v) => Ok(v)
      case None =>
        match PipShortcut(p, type1, type2, pip)
        case Some(v) => Ok(v)
        case None => if geos.Some? then Ok(geos.value) else Err(GeosError(p))
  }

  /** For a point and a polygon, contains and within are true only strictly
      inside, while covers, coveredby and intersects are also true on the
      boundary; so contains implies covers. */
  lemma PipMeaning(type1: int, type2: int, pip: int)
    requires PolygonType(type1) && type2 == POINTTYPE
    requires pip in {-1, 0, 1}
    ensures PipShortcut(Contains, type1, type2, pip) == Some(pip == 1)
    ensures PipShortcut(Covers, type1, type2, pip) == Some(pip >= 0)
    ensures PipShortcut(Intersects, type1, type2, pip) == Some(pip >= 0)
    ensures PipShortcut(Contains, type1, type2, pip) == Some(true) ==> PipShortcut(Covers, type1, type2, pip) == Some(true)
    ensures PipShortcut(Within, type2, type1, pip) == PipShortcut(Contains, type1, type2, pip)
    ensures PipShortcut(CoveredBy, type2, type1, pip) == PipShortcut(Covers, type1, type2, pip)
  {
  }

  /** within is contains with the arguments swapped, coveredby is covers
      with the arguments swapped, and intersects is symmetric — through the
      refusals, the box test, the point-in-polygon test and GEOS alike. The
      swapped pairs differ only in the text of the GEOS error. */
  lemma DecideSwaps(type1: int, type2: int, srid1: int, srid2: int,
                    box1: Option<Box2>, box2: Option<Box2>, pip: int, geos: Option<bool>)
    ensures var w, c := Decide(Within, type1, type2, srid1, srid2, box1, box2, pip, geos),
                        Decide(Contains, type2, type1, srid2, srid1, box2, box1, pip, geos);
      (w.Ok? <==> c.Ok?) && (w.Ok? ==> w.value == c.value)
    ensures var w, c := Decide(CoveredBy, type1, type2, srid1, srid2, box1, box2, pip, geos),
                        Decide(Covers, type2, type1, srid2, srid1, box2, box1, pip, geos);
      (w.Ok? <==> c.Ok?) && (w.Ok? ==> w.value == c.value)
    ensures Decide(Intersects, type1, type2, srid1, srid2, box1, box2, pip, geos)
         == Decide(Intersects, type2, type1, srid2, srid1, box2, box1, pip, geos)
  {
    BoxShortcutSwaps(box1, box2);
    assert PipShortcut(Within, type1, type2, pip) == PipShortcut(Contains, type2, type1, pip);
    assert PipShortcut(CoveredBy, type1, type2, pip) == PipShortcut(Covers, type2, type1, pip);
    assert PipShortcut(Intersects, type1, type2, pip) == PipShortcut(Intersects, type2, type1, pip);
  }
}
