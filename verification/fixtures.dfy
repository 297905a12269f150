/**
  The fixture corpus as the harness sees it: conformance examples, the
  version index, and a read-only store whose file reader and JSON decoders
  are oracles that may fail.
*/
module Fixtures {
  import opened Wrappers

  newtype byte = x: int | 0 <= x < 256

  type Bytes = seq<byte>

  /** One conformance example: Markdown input, expected HTML, and provenance. */
  datatype TestCase = TestCase(
    markdown: string,
    html: string,
    section: string,
    startLine: int,
    endLine: int,
    exampleNum: int)

  /** One row of the version index; only `version` is ever reported. */
  datatype IndexEntry = IndexEntry(version: string, url: string, date: string)

  /**
    The embedded corpus. Reading a path and decoding its JSON are outside
    the model; each either yields a value or fails with a message.
  */
  datatype Store = Store(
    readFile: string -> Result<Bytes, string>,
    decodeCases: Bytes -> Result<seq<TestCase>, string>,
    decodeIndex: Bytes -> Result<seq<IndexEntry>, string>)

  const SpecDir := "_specs"
  const SpecListFile := "spec_list.json"
  const SpecFilePrefix := "spec_"

  /** The path of a corpus file: its name joined under the corpus directory. */
  function SpecPath(name: string): string {
    SpecDir + "/" + name
  }

  function LoadFile(store: Store, name: string): Result<Bytes, string> {
    store.readFile(SpecPath(name))
  }
}
