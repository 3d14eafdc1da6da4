# Metabolomics dataset API: a verified model of its parsing core

The service answers `GET /api/dataset/<accession>/` with a normalised record of a
public metabolomics study. The record is a dict holding the accession, a
title, a description, the raw-data file names and the metabolite names. The
study can come from MetaboLights (`MTBLS…`), Metabolomics Workbench (`ST…`)
or MetaboBank (`MTBK…`). The view first classifies the accession by its tag.
It fetches the study's files into a local cache directory, but only if that
directory does not exist yet. It then always parses the cached files with the
repository's parser. Any exception becomes a "Dataset not found" 404. A
second view, in the web app, serves one cached file for download.

This project models that core in Dafny:

- `Wrappers`: the `Option` and `Result` types. `Result` is the outcome of a
  Python call that either returns or raises one of the modelled exceptions.
- `PyStr`: the string built-ins the core relies on, with their laws.
  - `s.replace(p, "")`, `strip()` (Python's Unicode whitespace set) and
    `split()`.
  - `rsplit(p, 1)[0]`, `'/'.join` and POSIX `os.path.join`.
- `Json`, `Tables`, `Disk`: what the foreign decoders (`json.load`,
  `pandas.read_csv(sep='\t')`, `readlines()`) hand to the parsers. The cached
  directory is modelled as a list of named files in `os.walk` order.
- `Config`: the settings the core reads, such as prefixes, the cache root and
  fixed file names. They are a parameter, not constants.
- `Utils` (`taskApi/utils.py`):
  - the three parsers, and each extraction step as a loop method proved
    equal to a specification function;
  - the filename regexes as hand-written scanners, proved equal to what the
    regex means;
  - `HTMLFilter` as a class with its `text` field, and the `.maf.` token
    step of the MetaboBank fetcher;
  - the prefix dispatchers.
- `ApiModels` (`taskApi/models.py`): `accession_prefix` and
  `dataset_files_folder`.
- `ApiViews` (`taskApi/views.py`):
  - the classification chain;
  - the cache path;
  - `view_DatasetDetails` as a method of a class that owns the cache. The
    cache is a map from directory path to directory contents, and the class
    also keeps a log of fetched paths.
- `WebappViews` (`taskWebapp/views.py`): the decision table of
  `download_file` and the path and attachment name it produces.

Two behaviours of the code are easy to misread:

- The MetaboBank metabolite-table scan keeps the *last* directory entry
  whose name contains "maf", not the first. The assignment runs on every hit.
- The MetaboLights fetcher *returns* on a 404 for one of its files
  (`taskApi/utils.py:138-140`). It does not raise. The view then goes on to
  parse whatever was cached, so the model treats a fetch by the files it
  wrote and whether it raised.

Three behaviours of the code are stated as written:

- The download view builds the MetaboLights metabolite file name with a
  literal `*` (`m_<accession>_*_maf.tsv`). No glob is applied, so that file
  is found only if a file has exactly that name.
- The MetaboBank fetcher guards its listing-page step with the file-list
  text, not the page (`MafDownloadNames`).
- The Workbench parser reads `<accession><json suffix>`, while the fetcher
  saves under the `study_id` the server returns.

## Model

| member | source | states |
|---|---|---|
| `PyStr.RemoveAll` | taskApi/models.py:36 | `replace(p, "")` never lengthens the string |
| `PyStr.RemoveAllLeading` | taskApi/utils.py:332 | `replace(p, "")` deletes a leading occurrence of a non-empty `p` and goes on with the rest |
| `PyStr.RemoveCharFacts` | taskApi/models.py:36 | deleting a character leaves none of it, and shortens by exactly its number of occurrences |
| `PyStr.RemoveCharAppend` | taskApi/models.py:36 | deleting a character works piecewise over concatenation, so all other characters stay in order |
| `PyStr.RemoveCharIdempotent` | taskApi/models.py:36 | deleting a character twice is deleting it once |
| `PyStr.Strip` | taskApi/utils.py:332 | `strip()` is no longer than its input, is empty exactly when the input is all whitespace, and otherwise starts and ends with non-whitespace |
| `PyStr.StripPadded` | taskApi/utils.py:332 | `strip()` of whitespace + text + whitespace, with text not starting or ending with whitespace, gives that text |
| `PyStr.StripIdempotent` | taskApi/utils.py:349 | stripping a stripped line changes nothing |
| `PyStr.SplitWs` | taskApi/utils.py:267 | `split()` yields only non-empty tokens with no whitespace |
| `PyStr.TokenLengthOf` | taskApi/utils.py:267 | the leading token of `t + u` is exactly `t` when `t` has no whitespace and `u` is empty or starts with whitespace |
| `PyStr.SplitWsOfSpaces` | taskApi/utils.py:267 | `split()` of whitespace alone gives no tokens |
| `PyStr.SplitWsToken` | taskApi/utils.py:267 | `split()` cuts only at whitespace: whitespace, a whitespace-free token, then the end or more whitespace gives that token whole, followed by the split of the rest |
| `PyStr.SplitWsLosesOnlySpace` | taskApi/utils.py:267 | the tokens of `split()`, concatenated, are the input with its whitespace removed: nothing else is lost or reordered |
| `PyStr.LastIndexOf` | taskApi/utils.py:272 | the found index is an occurrence with no later one; no index means no occurrence (what `rsplit(p, 1)` cuts at) |
| `PyStr.BeforeLast` | taskApi/utils.py:272-273 | `rsplit(p, 1)[0]`: the text before the last occurrence (found by `LastIndexOf`), or the whole string; its effect on the `.maf.` tokens is stated by `Utils.MafFileNameCut` |
| `PyStr.JoinWith` | taskApi/models.py:22 | `sep.join(parts)`; its four-part case is stated by `ApiModels.JoinFour` |
| `PyStr.PathJoin` | taskApi/views.py:76 | POSIX `os.path.join(a, b)`: an absolute `b` replaces `a`, otherwise one '/' is inserted unless `a` is empty or ends in one; its laws are `PathJoinInjective` and `ApiViews.JoinedTail` |
| `PyStr.LastSegment` | taskApi/models.py:22 | `x/a == y/b` with slash-free `a`, `b` forces `x == y` and `a == b` |
| `PyStr.PathJoinInjective` | taskApi/views.py:76 | `os.path.join(base, p)` is injective in non-empty slash-free `p` |
| `Json.Index` | taskApi/utils.py:402 | `v[key]` succeeds exactly on a dict holding the key, with its value; a dict without the key raises KeyError |
| `Json.StrArray` | taskApi/utils.py:350 | a list of names becomes a JSON array of the same length with the same strings in order |
| `Json.Truthy` | taskApi/utils.py:403-411 | Python's `bool()` on a decoded JSON value (the `if analysis_id:`, `if study_title:`, `if study_description:` and `if metabolite_name:` tests): null, false, zero and empty strings and containers are falsy |
| `Tables.IndexOf` | taskApi/utils.py:364 | the first header position equal to the name, or none when the name is absent |
| `Tables.Column` | taskApi/utils.py:364 | `df[name]` exists exactly when the header has the name; it then has one cell per row, the cell of each row under the first header equal to the name |
| `Tables.Present` | taskApi/utils.py:365-368 | the `pd.isna` filter over a column; what it keeps is stated by `PresentAppend`, `PresentFacts` and `PresentAllSome` |
| `Tables.PresentAppend` | taskApi/utils.py:365-368 | dropping NaN cells works piecewise over concatenation, so order is kept |
| `Tables.PresentFacts` | taskApi/utils.py:365-368 | the kept names are no more than the cells, and are exactly the non-missing values |
| `Tables.PresentAllSome` | taskApi/utils.py:365-368 | a column without NaN comes back whole, cell for cell |
| `Disk.Names` | taskApi/utils.py:358-359 | the directory listing lists every entry once, in order |
| `Disk.Open` | taskApi/utils.py:326 | `open` succeeds exactly for a listed name, returning the file of the first entry with that name, and otherwise raises FileNotFoundError for that name |
| `Disk.OpenFirstEntry` | taskApi/utils.py:326 | for a listed name, `open` returns the file of an entry with that name that no earlier entry shares |
| `Disk.ReadTable` | taskApi/utils.py:363 | `read_csv` of an unlisted name raises FileNotFoundError; of a listed one, it gives the table of the first entry with that name, or DecodeError when that file does not parse |
| `Disk.ReadJson` | taskApi/utils.py:400 | `json.load` of an unlisted name raises FileNotFoundError; of a listed one, it gives the document of the first entry with that name, or DecodeError when that file is not valid JSON |
| `Utils.RepositoryOf` | taskApi/utils.py:290-301 | the dispatcher picks a repository whose prefix equals the argument, and falls through exactly when no prefix does |
| `Utils.RepositoryOfPrefix` | taskApi/utils.py:94-109 | with distinct prefixes, dispatching a repository's own prefix reaches that repository's branch |
| `Utils.ScanExtMeans` | taskApi/utils.py:360 | the backtracking scan for `.+\.(ext)` succeeds exactly when some later position starts an extension with no newline before it |
| `Utils.IsMtblsMetadataFile` | taskApi/utils.py:132-133 | the FTP filter `re.match(r"([siam]).+\.((txt)|(tsv))", filename)`; its meaning is stated by `IsMtblsMetadataFileMeans` |
| `Utils.IsMetaboliteTable` | taskApi/utils.py:360 | the MetaboLights table filter `re.match("(m_).+\.(tsv)", file)`; its meaning is stated by `IsMetaboliteTableMeans` |
| `Utils.MentionsMaf` | taskApi/utils.py:489 | the MetaboBank table filter `"maf" in file`, substring containment |
| `Utils.IsMtblsMetadataFileMeans` | taskApi/utils.py:132 | the FTP filter accepts exactly the names starting with one of `siam`, then at least one non-newline character, then `.txt` or `.tsv`, with anything after (`re.match` anchors only at the start) |
| `Utils.IsMetaboliteTableMeans` | taskApi/utils.py:360 | the metabolite-table filter accepts exactly `m_`, at least one non-newline character, then `.tsv`, with anything after |
| `Utils.FilenamePatternExamples` | taskApi/utils.py:132-149 | `i_Investigation.txt` is fetched and `FILES` is not; a trailing suffix is allowed; `m_.tsv` is rejected |
| `Utils.LastHit` | taskApi/utils.py:358-361 | the index found satisfies the filter and no later entry does; none found means no entry does |
| `Utils.LastWhereAt` | taskApi/utils.py:358-361 | a hit with no later hit is what the scan ends up holding |
| `Utils.LastWhereSnoc` | taskApi/utils.py:359-361 | one more entry either becomes the last hit or leaves it as it was |
| `Utils.FindLast` | taskApi/utils.py:358-361 | the scan loop returns the last entry satisfying the filter, or none |
| `Utils.GetMetadata` | taskApi/utils.py:328-337 | the line loop of `get_metadata_mtbls`, which `get_metadata_mtbk` (467-476) repeats word for word, computes the label scan `WithMetadata` over the file's lines |
| `Utils.MetadataTitle` | taskApi/utils.py:328-332 | last line wins: Title is set from the last line containing "Study Title", with every occurrence of the label removed and the rest stripped; with no such line Title keeps its old state |
| `Utils.MetadataDescription` | taskApi/utils.py:328-337 | last line wins for Description, from the last line containing "Study Description", independently of Title |
| `Utils.MetadataOthers` | taskApi/utils.py:328-337 | the line loop changes no key other than Title and Description |
| `Utils.MetadataKeys` | taskApi/utils.py:328-337 | the three metadata facts at once: Title and Description each come from the last line holding their label, independently, and every other key keeps its state |
| `Utils.TitleLineExample` | taskApi/utils.py:330-332 | `Study Title<TAB>My Study<NL>` yields `My Study` |
| `Utils.LabelledLine` | taskApi/utils.py:330-332 | a line made of a label and a rest that does not repeat it holds the label, and its value is the rest stripped: `replace(label, "")` deletes the whole label, not one character of it |
| `Utils.GetRawdataFilenamesMtbls` | taskApi/utils.py:344-351 | Rawdata has one entry per manifest line, each the line stripped, in file order, with duplicates kept |
| `Utils.CollectPresent` | taskApi/utils.py:365-368 | the cell loop keeps exactly the non-NaN cells, in order |
| `Utils.MetabolitesSelection` | taskApi/utils.py:358-362 | with no matching entry the list is empty; otherwise it is read from the last matching entry's table |
| `Utils.TableMetabolitesFacts` | taskApi/utils.py:363-368 | reading succeeds exactly when the table has `metabolite_identification`; the names are then its non-missing cells, no more than the rows |
| `Utils.GetMetabolitesNames` | taskApi/utils.py:354-374 | the MetaboLights and MetaboBank metabolite steps store the selected table's names under Metabolites, or pass its exception on |
| `Utils.RawRows` | taskApi/utils.py:510-511 | the `Type == "raw"` selection of the Name column has no more cells than the column |
| `Utils.RawRowsAppend` | taskApi/utils.py:510-511 | the row selection works piecewise over the table, so row order is kept |
| `Utils.RawNamesFacts` | taskApi/utils.py:508-515 | MetaboBank Rawdata is built row by row, in order, and has no more names than rows |
| `Utils.RawNamesRow` | taskApi/utils.py:510-515 | a row contributes its Name exactly when Type is "raw" and Name is not missing |
| `Utils.GetRawdataFilenamesMtbk` | taskApi/utils.py:505-520 | the file-list step stores the raw names under Rawdata; an unreadable file or a missing Type or Name column raises |
| `Utils.WorkbenchMetadata` | taskApi/utils.py:397-416 | `get_metadata_mtwb` on the loaded document; what it sets is stated by `WorkbenchMetadataKeys` |
| `Utils.WorkbenchMetadataKeys` | taskApi/utils.py:397-416 | the Workbench metadata step succeeds exactly when the three paths exist; each of analysis_id, Title and Description is set to the document's value when that value is truthy, and otherwise left as it was; no other key changes |
| `Utils.Iterate` | taskApi/utils.py:426 | `for x in v` over a decoded value: a list yields its items, an empty dict or string yields nothing, and anything else raises TypeError (for a non-empty dict or string, at the `["Metabolite"]` index of its first string item) |
| `Utils.WorkbenchNamesRaiseSticks` | taskApi/utils.py:426-427 | the first entry without a "Metabolite" key aborts the whole list with its exception |
| `Utils.WorkbenchNamesFacts` | taskApi/utils.py:426-429 | the list is read exactly when every entry has a "Metabolite"; it then holds only truthy values, each the "Metabolite" of some entry and every truthy one present, with no more names than entries |
| `Utils.WorkbenchNamesAppend` | taskApi/utils.py:426-429 | the names of two runs of entries are the names of the first followed by those of the second, so entry order and duplicates are kept |
| `Utils.WorkbenchNamesEntry` | taskApi/utils.py:427-429 | one entry contributes its "Metabolite" value when truthy, nothing when falsy, and raises when it has none |
| `Utils.CollectWorkbenchMetabolites` | taskApi/utils.py:426-429 | the entry loop computes `WorkbenchNames` |
| `Utils.GetMetabolitesNamesMtwb` | taskApi/utils.py:419-434 | the Workbench metabolite step stores the filtered names under Metabolites, or raises |
| `Utils.MtblsDataset` | taskApi/utils.py:304-321 | the dict `parse_dataset_data_mtbls` returns, or the exception it raises; stated by `MtblsDatasetFields` and `MtblsDatasetMetadata` |
| `Utils.MtwbDataset` | taskApi/utils.py:377-394 | the dict `parse_dataset_data_mtwb` returns, or the exception it raises; stated by `MtwbDatasetFields` and `MtwbDatasetMetadata` |
| `Utils.MtbkDataset` | taskApi/utils.py:437-460 | the dict `parse_dataset_data_mtbk` returns, or the exception it raises; stated by `MtbkDatasetFields` and `MtbkDatasetMetadata` |
| `Utils.DatasetRecord` | taskApi/utils.py:290-301 | `parse_dataset_data`: the selected parser's dict, its exception, or None for an unknown prefix; stated by `ParseDatasetData` and `ApiViews.DetailsOutcomes` |
| `Utils.FreshMetadata` | taskApi/utils.py:328-337 | on the fresh dict `{"accession": …}`, the label scan leaves Title and Description exactly as the last labelled lines give them, and absent without one |
| `Utils.MtblsDatasetFields` | taskApi/utils.py:304-321 | a MetaboLights record exists exactly when the investigation file and manifest are cached and the metabolite step succeeds; it then holds the accession, Rawdata and Metabolites, and a Title or Description exactly when a labelled line exists |
| `Utils.MtblsDatasetMetadata` | taskApi/utils.py:310-312 | a MetaboLights record's Title and Description are the labelled values of the investigation file's last "Study Title" and last "Study Description" lines, and absent without such a line |
| `Utils.MtblsDatasetKeys` | taskApi/utils.py:304-321 | a MetaboLights record holds no keys besides accession, Title, Description, Rawdata and Metabolites |
| `Utils.MtwbDatasetFields` | taskApi/utils.py:377-394 | a missing JSON file raises FileNotFoundError; a Workbench record exists exactly when the file decodes, the three metadata paths exist and the metabolite list is read; it holds the accession and the document's filtered metabolites |
| `Utils.MtwbDatasetMetadata` | taskApi/utils.py:397-416 | a Workbench record's analysis_id, Title and Description are the document's ANALYSIS_ID, STUDY_TITLE and STUDY_SUMMARY where truthy, and absent otherwise |
| `Utils.MtwbDatasetKeys` | taskApi/utils.py:377-394 | a Workbench record holds no keys besides accession, analysis_id, Title, Description and Metabolites |
| `Utils.MtbkDatasetFields` | taskApi/utils.py:437-460 | a missing idf file raises FileNotFoundError; a MetaboBank record exists exactly when the idf file is cached and both later steps succeed, and then holds the accession, Metabolites and Rawdata |
| `Utils.MtbkDatasetMetadata` | taskApi/utils.py:463-480 | a MetaboBank record's Title and Description are the labelled values of the idf file's last labelled lines, and absent without one |
| `Utils.MtbkDatasetKeys` | taskApi/utils.py:437-460 | a MetaboBank record holds no keys besides accession, Title, Description, Metabolites and Rawdata |
| `Utils.ParseDatasetDataMtbls` | taskApi/utils.py:304-321 | the MetaboLights parser computes `MtblsDataset` |
| `Utils.ParseDatasetDataMtwb` | taskApi/utils.py:377-394 | the Workbench parser computes `MtwbDataset` |
| `Utils.ParseDatasetDataMtbk` | taskApi/utils.py:437-460 | the MetaboBank parser computes `MtbkDataset` |
| `Utils.ParseDatasetData` | taskApi/utils.py:290-301 | the dispatcher runs the parser the prefix selects and returns None for an unknown prefix |
| `Utils.HtmlFilter.constructor` | taskApi/utils.py:84-88 | a fresh filter holds no text |
| `Utils.HtmlFilter.HandleData` | taskApi/utils.py:90-91 | each data chunk is appended to `text` |
| `Utils.HtmlFilter.Feed` | taskApi/utils.py:90-91 | after a page, `text` is the old text followed by all data chunks in order |
| `Utils.FlattenSnoc` | taskApi/utils.py:91 | appending one more chunk appends it to the concatenation |
| `Utils.MafNamesFacts` | taskApi/utils.py:269-273 | the `.maf.` list works piecewise over the tokens, so order is kept, and it has no more names than tokens |
| `Utils.MafNamesToken` | taskApi/utils.py:270-273 | a token contributes exactly when it contains ".maf.", and then its cut name with the suffix |
| `Utils.MafFileNameCut` | taskApi/utils.py:272-273 | a kept token is cut just before its last ".txt", or kept whole without one, and the suffix is appended |
| `Utils.CollectMafFilenames` | taskApi/utils.py:269-273 | the token loop computes `MafNames` |
| `Utils.MafDownloadNames` | taskApi/utils.py:262-273 | the listing step runs only when the file-list text is truthy; a missing page then raises TypeError; otherwise the names come from the page's whitespace tokens |
| `ApiModels.AccessionPrefix` | taskApi/models.py:35-36 | a null template raises AttributeError; otherwise the prefix contains no 'x' and is shorter by exactly the number of 'x's |
| `ApiModels.AccessionPrefixKeepsOthers` | taskApi/models.py:36 | deleting 'x' works piecewise and character by character, so the other characters stay in order |
| `ApiModels.AccessionPrefixStep` | taskApi/models.py:36 | each leading character is dropped if it is 'x' and kept otherwise |
| `ApiModels.AccessionPrefixIdempotent` | taskApi/models.py:36 | a derived prefix used as a template gives itself back |
| `ApiModels.PlaceholdersVanish` | taskApi/models.py:36 | a run of placeholder 'x's is deleted entirely |
| `ApiModels.NoPlaceholderKept` | taskApi/models.py:36 | text without 'x' is kept whole |
| `ApiModels.AccessionPrefixOfPadded` | taskApi/models.py:35-36 | an 'x'-free text padded with any number of placeholders gives back exactly that text as the prefix |
| `ApiModels.AccessionPrefixMtbls` | taskApi/models.py:35-36 | the template `MTBLSxxx` gives the prefix `MTBLS` |
| `ApiModels.DatasetFilesFolder` | taskApi/models.py:19-22 | the upload path is `datasets/<prefix>/<accession>/<filename>`, the primary key being the accession, or the prefix's exception |
| `ApiModels.JoinFour` | taskApi/models.py:22 | `'/'.join` of four parts puts one '/' between neighbours |
| `ApiModels.DatasetFilesFolderInjective` | taskApi/models.py:19-22 | with one prefix, the same path means the same accession and the same file name |
| `ApiViews.Classify` | taskApi/views.py:67-74 | a repository is chosen only when the accession is its tag followed by a word character |
| `ApiViews.TagChars` | taskApi/views.py:67-72 | a matching accession starts with the tag, character by character |
| `ApiViews.TagsExclusive` | taskApi/views.py:67-73 | no accession matches two tags |
| `ApiViews.ClassifyExact` | taskApi/views.py:67-74 | the chain picks a repository exactly when its pattern matches, so every accession gets one repository or the 404 |
| `ApiViews.ClassifyExamples` | taskApi/views.py:67-74 | bare `MTBLS`, `ST`, `MTBK` are invalid; `MTBLS1`, `ST000001`, `MTBKS93` are classified; `mtbls1` and `ST-1` are invalid |
| `ApiViews.LocalPath` | taskApi/views.py:76 | the cache directory `os.path.join(DATASETS_DIR, prefix, accession)`; its form and injectivity are `LocalPathForm` and `LocalPathInjective` |
| `ApiViews.LocalPathForm` | taskApi/views.py:76 | with a cache root not ending in '/' and non-empty slash-free segments, the directory is `<root>/<prefix>/<accession>` |
| `ApiViews.JoinedTail` | taskApi/views.py:76 | joining a non-empty slash-free segment gives a path not ending in '/' |
| `ApiViews.LocalPathInjective` | taskApi/views.py:76 | different repositories, or different accessions, get different cache directories |
| `ApiViews.DetailsResponse` | taskApi/views.py:63-88 | the endpoint's answer from the cache and the fetch outcome: the invalid-accession 404, no fetch for an existing directory, the "Dataset not found" 404 for a raising fetch or parse, the record as JSON; stated by `DetailsOutcomes`, `CacheHitIgnoresFetch`, `FetchThenParse` and `NothingFetchedIsNotFound` |
| `ApiViews.DatasetService.ViewDatasetDetails` | taskApi/views.py:63-88 | an invalid accession changes nothing; a cached accession is parsed without a fetch; otherwise one fetch is logged, what it wrote joins the cache, and the answer is DetailsResponse |
| `ApiViews.CacheHitIgnoresFetch` | taskApi/views.py:79-84 | for a cached accession the answer does not depend on the fetcher |
| `ApiViews.FetchThenParse` | taskApi/views.py:79-84 | the parser runs after a fetch exactly as it runs on a later cache hit over what the fetch wrote |
| `ApiViews.DetailsOutcomes` | taskApi/views.py:77-88 | with distinct prefixes a valid accession ends in JSON or in the "Dataset not found" 404, never an uncaught error, and the JSON carries the requested accession |
| `ApiViews.NothingFetchedIsNotFound` | taskApi/views.py:79-86 | a fetch that writes nothing and returns leads to a 404 |
| `WebappViews.DownloadChoiceTable` | taskWebapp/views.py:63-80 | MTBLS "metadata" and "rawdata" select the investigation file and "metabolites" the `m_<acc>_*_maf.tsv` name; ST and MTBK select their one file; an unclassified accession, or MTBLS with another file type, is an error, not a 404 |
| `WebappViews.FiletypeIrrelevance` | taskWebapp/views.py:59-78 | the file type matters only for MTBLS; "rawdata" serves what the default "metadata" serves |
| `WebappViews.DownloadPath` | taskWebapp/views.py:80-89 | the served path is the endpoint's cache directory joined with the file name; the attachment is `<accession>_<filename>`; a missing file is a 404 |
| `WebappViews.DownloadChoice` | taskWebapp/views.py:63-78 | a chosen repository is the one the accession classifies to; an unclassified accession leaves `prefix` unbound |
| `WebappViews.DownloadFile` | taskWebapp/views.py:59-89 | with the default file type "metadata": an uncaught error exactly when the decision table fails, never JSON, and a served file is one that exists, named `<accession>_<filename>` |

## Left out

- All network transfer is left out: FTP listing, HTTP downloads, `get_json_data` and `get_text_data`. Only the effect of a fetch is kept: the files it wrote, and whether it raised. The Workbench fetcher's unbound `study_id`, when the first request returns nothing (`taskApi/utils.py:181-187`), is not modelled for the same reason.
- The FTP loop of `get_dataset_files_mtbls` is not modelled as a loop. That covers its `FILES` sub-directory listing and its early return. Only its filename predicate is modelled.
- File writing is left out: `save_json_data`, `save_text_data` and `os.makedirs`. The model takes "a directory exists" to mean that at least one file was written into it.
- `os.walk` is taken as the listing of one directory. A matching file in a sub-directory would be opened at the wrong path. That failure is not modelled.
- `pandas`, `json.load` and `readlines` are foreign code. Their results are inputs: cells are strings or missing, and numbers in JSON are reals. pandas dtype inference is not modelled. A numeric `metabolite_identification` or `Name` column reaches the JSON as numbers where the model has strings. An integer column with a missing cell is read as floats, so `123` becomes `123.0`.
- `HTMLParser` tokenizing is left out. `Feed` receives the data chunks the parser would report. `close()` is never called by the source, so trailing buffered text is not modelled.
- Django glue is left out: URL routing, serializers, the admin, forms, `home`, `get_dataset`, `ds_details_view`, mimetypes and the response classes beyond their kind.
- The management commands are left out. `get_dataset.py` calls `get_dataset_data` with one argument where it takes two; `load_repository_data.py` and `get_dataset_list.py` import functions `taskApi/utils.py` does not define.
- Concurrent requests racing on one cache directory are out of scope.
- `ApiViews.Classify`: `\w` is modelled as ASCII `[A-Za-z0-9_]`. That is exact for the slug URLs the endpoint accepts, but weaker than Python's Unicode `\w` for arbitrary strings.
- `PyStr.Strip`: Python's `strip()` whitespace is modelled as a fixed code-point set. Unicode normalisation and encoding are not modelled.
