/**
 * The parsed JSON documents the decoder reads: a plain source map (format
 * version 3) and an index map whose sections each carry or reference a plain
 * map.  Parsing itself is not part of this model; these are the values
 * `JSON.parse` produces, with JavaScript's falsy values folded in:
 *  - an optional string field is `""` when it is absent, because the code
 *    only ever checks such fields for truthiness;
 *  - an optional array field the code checks with `if (x)` is an `Option`,
 *    because an empty array is truthy;
 *  - `sourcesContent` is `[]` when absent, and an entry that is not a string
 *    is `None`.
 */
module SourceMapJson {
  import opened Wrappers

  /** A plain source map (`SourceMap`, src/lib/decoder.ts:20-32). */
  datatype SourceMap = SourceMap(
    version: int,
    file: string,
    sourceRoot: string,
    sources: seq<string>,
    names: Option<seq<string>>,
    mappings: string,
    sourcesContent: seq<Option<string>>,
    scopes: string,                 // x_ms_scopes
    locals: string,                 // x_ms_locals
    mediaTypes: Option<seq<string>>, // x_ms_mediaTypes
    sourceMediaTypes: string         // x_ms_sourceMediaTypes
  )

  /** The generated position at which a section starts. */
  datatype Offset = Offset(line: int, column: int)

  /** One section of an index map: an inline map, or the URL of one. */
  datatype Section = Section(offset: Offset, url: string, sectionMap: Option<SourceMap>)

  /** An index map (`IndexMap`, src/lib/decoder.ts:5-9). */
  datatype IndexMap = IndexMap(version: int, file: string, sections: seq<Section>)

  /** What the map file parses to; `"sections" in map` tells the two apart. */
  datatype Document = Indexed(index: IndexMap) | Plain(sourceMap: SourceMap)
}
