/**
 * Name handling in pycoco/__init__.py: the filter name `read_filter_file` derives from a
 * path, `get_filter_from_filename`, and the name filter of `find_recon_spec`.
 */
module FileNames {
  import opened PyStrings
  import opened Outcomes

  /** `path.split("/")[-1]`. */
  function LastPathSegment(path: string): string
  {
    var parts := Split(path, "/");
    parts[|parts| - 1]
  }

  /**
   * `read_filter_file`: `path.split('/')[-1].split('.')[0]`, the text of the last
   * '/'-segment up to its first '.': it holds neither character, it starts that
   * segment, and the segment ends the path.
   */
  function FilterNameFromPath(path: string): (name: string)
    ensures var seg := LastPathSegment(path);
      && '/' !in seg && |seg| <= |path| && seg == path[|path| - |seg|..]
      && '.' !in name && '/' !in name && |name| <= |seg| && name == seg[..|name|]
      && (|name| < |seg| ==> seg[|name|] == '.')
  {
    var seg := LastPathSegment(path);
    LastPiece(path, '/');
    FirstPiece(seg, '.');
    Split(seg, ".")[0]
  }

  /** The last segment of `dir/seg` is `seg` when `seg` holds no '/'. */
  lemma LastPathSegmentOf(dir: string, seg: string)
    requires '/' !in seg
    ensures LastPathSegment(dir + "/" + seg) == seg
  {
    var s := dir + "/" + seg;
    var r := LastPathSegment(s);
    LastPiece(s, '/');
    if |r| < |seg| {
      assert false;
    } else if |r| > |seg| {
      InSuffix(r, s, |s| - |seg| - 1);
      assert false;
    }
  }

  /** Every character of `s` from the start of a suffix `r` on occurs in `r`. */
  lemma InSuffix(r: string, s: string, k: int)
    ensures |r| <= |s| && r == s[|s| - |r|..] && |s| - |r| <= k < |s| ==> s[k] in r
  {
    if |r| <= |s| && r == s[|s| - |r|..] && |s| - |r| <= k < |s| {
      assert r[k - (|s| - |r|)] == s[k];
    }
  }

  /** Every character of `s` before the end of a prefix `r` occurs in `r`. */
  lemma InPrefix(r: string, s: string, k: int)
    ensures |r| <= |s| && r == s[..|r|] && 0 <= k < |r| ==> s[k] in r
  {
    if |r| <= |s| && r == s[..|r|] && 0 <= k < |r| {
      assert r[k] == s[k];
    }
  }

  /** The first '.'-piece of `name.ext` is `name` when `name` holds no '.'. */
  lemma FirstDotPieceOf(name: string, ext: string)
    requires '.' !in name
    ensures Split(name + "." + ext, ".")[0] == name
  {
    var s := name + "." + ext;
    var r := Split(s, ".")[0];
    FirstPiece(s, '.');
    if |r| < |name| {
      assert false;
    } else if |r| > |name| {
      InPrefix(r, s, |name|);
      assert false;
    }
  }

  /** A filter file `dir/name.ext`, with no '/' or '.' in the name, is named `name`. */
  lemma FilterNameRoundTrip(dir: string, name: string, ext: string)
    requires '/' !in name && '/' !in ext && '.' !in name
    ensures FilterNameFromPath(dir + "/" + (name + "." + ext)) == name
  {
    LastPathSegmentOf(dir, name + "." + ext);
    FirstDotPieceOf(name, ext);
  }

  /**
   * `get_filter_from_filename`: the last path segment with every occurrence of
   * `fileType` and then every occurrence of `snname + "_"` deleted; what remains is
   * part of the file name, never of its directory.
   */
  function GetFilterFromFilename(path: string, snname: string, fileType: string): (r: string)
    ensures '/' !in r && |r| <= |LastPathSegment(path)|
  {
    LastPiece(path, '/');
    RemoveAll(RemoveAll(LastPathSegment(path), fileType), snname + "_")
  }

  /**
   * A photometry file `dir/<snname>_<filter><fileType>` gives back `filter`, when the
   * only occurrence of `fileType` in the file name is the trailing one and `filter`
   * does not contain `snname_`.
   */
  lemma GetFilterRoundTrip(dir: string, snname: string, filter: string, fileType: string)
    requires fileType != []
    requires '/' !in snname + "_" + filter + fileType
    requires var stem := snname + "_" + filter;
      forall i :: 0 <= i < |stem| ==> !StartsWith((stem + fileType)[i..], fileType)
    requires forall i :: 0 <= i <= |filter| ==> !StartsWith(filter[i..], snname + "_")
    ensures GetFilterFromFilename(dir + "/" + (snname + "_" + filter + fileType), snname, fileType) == filter
  {
    var stem := snname + "_" + filter;
    LastPathSegmentOf(dir, stem + fileType);
    RemoveAllTrailing(stem, fileType);
    assert stem == (snname + "_") + filter;
    RemoveAllLeading(snname + "_", filter);
  }

  /** The extension `find_recon_spec` looks for. */
  const SpecFileType: string := ".spec"

  /** The number of trailing characters (MJD and extension) after the SN name. */
  const ReconSuffixLength: nat := 18

  /** The per-file test of `find_recon_spec`: a ".spec" file whose name minus its last 18 characters is `snname`. */
  predicate IsReconSpecFor(name: string, snname: string)
  {
    FoundInTail(name, SpecFileType) && DropLast(name, ReconSuffixLength) == snname
  }

  /** `find_recon_spec`'s filtering of a directory listing. */
  function ReconSpecMatches(ls: seq<string>, snname: string): (r: seq<string>)
    ensures |r| <= |ls|
    ensures forall x :: x in r <==> x in ls && IsReconSpecFor(x, snname)
  {
    if ls == [] then []
    else
      var rest := ReconSpecMatches(ls[1..], snname);
      if IsReconSpecFor(ls[0], snname) then [ls[0]] + rest else rest
  }

  /**
   * `find_recon_spec` on a directory listing: None, the source's `False`, for an empty
   * listing (numpy's string search refuses the float array `np.array([])` and the bare
   * `except` answers `False`); otherwise the matching names.
   */
  function FindReconSpec(ls: seq<string>, snname: string): (r: Option<seq<string>>)
    ensures r.None? <==> ls == []
    ensures r.Some? ==> forall x :: x in r.value <==> x in ls && IsReconSpecFor(x, snname)
  {
    if ls == [] then None else Some(ReconSpecMatches(ls, snname))
  }

  /** The matches keep the listing's order: matching a concatenation concatenates the matches. */
  lemma {:induction false} ReconSpecMatchesConcat(a: seq<string>, b: seq<string>, snname: string)
    ensures ReconSpecMatches(a + b, snname) == ReconSpecMatches(a, snname) + ReconSpecMatches(b, snname)
  {
    if a != [] {
      assert (a + b)[1..] == a[1..] + b;
      ReconSpecMatchesConcat(a[1..], b, snname);
    } else {
      assert a + b == b;
    }
  }

  /** A name matches exactly when it ends in ".spec" and drops to `snname` without its last 18 characters. */
  lemma ReconSpecTest(name: string, snname: string)
    ensures IsReconSpecFor(name, snname) <==>
      && |name| >= 5 && name[|name| - 5..] == ".spec"
      && (if |name| >= 18 then name[..|name| - 18] == snname else snname == "")
  {
    FoundInTailIsEndsWith(name, SpecFileType);
  }
}
