/**
 * The project settings the core reads: the repository prefixes, the cache
 * root and the fixed cached file names. Their values live in the settings
 * module, which is not part of this model, so they are a parameter here.
 */
module Config {
  import opened PyStr

  /** The three repositories, named after their settings prefixes. */
  datatype Repo = MTBLS | MTWB | MTBK

  datatype Settings = Settings(
    datasetsDir: string,        // DATASETS_DIR
    mtblsPrefix: string,        // MTBLS_ACC_PREFIX
    mtwbPrefix: string,         // MTWB_ACC_PREFIX
    mtbkPrefix: string,         // MTBK_ACC_PREFIX
    mtblsInvestigation: string, // MTBLS_FNAME_INVESTIGATION
    mtblsResultFiles: string,   // MTBLS_FNAME_RESULT_FILES
    mtwbJsonSuffix: string,     // MTWB_FNAME_JSON_SUFIX
    mtbkIdfPrefix: string,      // MTBK_IDF_FILE_PREFIX
    mtbkFilelistPrefix: string, // MTBK_FILELIST_FILE_PREFIX
    mtbkFilesSuffix: string     // MTBK_FILES_SUFIX
  )

  function PrefixOf(s: Settings, r: Repo): string {
    match r
    case MTBLS => s.mtblsPrefix
    case MTWB => s.mtwbPrefix
    case MTBK => s.mtbkPrefix
  }

  /** Prefixes that name distinct, single directory levels under the cache root. */
  predicate WellFormed(s: Settings) {
    && (forall r: Repo :: PrefixOf(s, r) != "" && SlashFree(PrefixOf(s, r)))
    && s.mtblsPrefix != s.mtwbPrefix
    && s.mtblsPrefix != s.mtbkPrefix
    && s.mtwbPrefix != s.mtbkPrefix
  }
}
