/** The spectral-index table `INDEX_DICT` and its lookup, written identically in
    earth-engine/landtrendr/preprocess.py and earth-engine/landtrendr/postprocess.py. */
module SpectralIndex {
  import opened Wrappers
  import opened Harmonize

  /** Disturbance direction and the two bands of the normalised difference. */
  datatype IndexInfo = IndexInfo(distDir: int, bands: seq<Canonical>)

  /** `NotImplementedError` for a known index the code does not support,
      `RuntimeError` for a name that is no spectral index at all. */
  datatype IndexError = NotImplemented(name: string) | Unrecognized(name: string)

  const INDEX_DICT: map<string, IndexInfo> := map[
    "NDVI" := IndexInfo(-1, [B4, B3]),
    "NBR" := IndexInfo(-1, [B4, B7])
  ]

  /** Standard indices that are recognised but not implemented. */
  const KNOWN_UNSUPPORTED: seq<string> := ["NDSI", "NDMI", "TCB", "TCG", "TCW", "TCA", "NBR2"]

  /** `INDEX_DICT[index]`, with the `KeyError` turned into the source's two errors. */
  function LookupIndex(index: string): (r: Result<IndexInfo, IndexError>)
    ensures r.Ok? <==> index == "NDVI" || index == "NBR"
    ensures r.Ok? ==> r.value.distDir == -1 && |r.value.bands| == 2 && r.value.bands[0] == B4
    ensures index == "NDVI" ==> r == Ok(IndexInfo(-1, [B4, B3]))
    ensures index == "NBR" ==> r == Ok(IndexInfo(-1, [B4, B7]))
    ensures r == Err(NotImplemented(index)) <==> index in KNOWN_UNSUPPORTED
    ensures r == Err(Unrecognized(index)) <==> !(index in INDEX_DICT) && !(index in KNOWN_UNSUPPORTED)
    ensures r.Err? ==> r.error.name == index
  {
    if index in INDEX_DICT then Ok(INDEX_DICT[index])
    else if index in KNOWN_UNSUPPORTED then Err(NotImplemented(index))
    else Err(Unrecognized(index))
  }
}
