// File artifacts: what one tree entry is classified as, and what a source
// reader may hand over for it.
module Artifacts {
  import opened Outcomes

  const PARSER_ID := "reverb.file-metadata"
  const PARSER_VERSION := "1.0.0"

  datatype EntryKind = Blob | Symlink | Submodule
  datatype TreeEntry = TreeEntry(path: string, kind: EntryKind, mode: string, size: Option<nat>, objectId: string)

  datatype Exclusion = GeneratedPath | VendoredPath | ArchivePath
  datatype Classification =
    Source | Generated | Vendored | Unsupported | Oversized | Binary | SymlinkEntry | SubmoduleEntry
  datatype ParseState = Parsed | Skipped | Failed

  // Everything in an artifact that neither names a generation nor a path.
  datatype Portable = Portable(
    sourceBlobId: string, contentHash: Option<string>, size: nat, language: string, classification: Classification,
    parseState: ParseState, parserId: string, parserVersion: string, configRevision: string, lineCount: Option<nat>)

  datatype FileArtifact = FileArtifact(
    generationId: string, path: string, portable: Portable, reusedFrom: Option<string>)

  // The fields that reach the result hash of a generation.
  datatype Semantic = Semantic(path: string, portable: Portable)

  function SemanticOf(a: FileArtifact): Semantic {
    Semantic(a.path, a.portable)
  }

  // The parts kept abstract: SHA-256, UTF-8 decoding and the two name tables.
  datatype Tools = Tools(
    digest: seq<int> -> string, decode: seq<int> -> Option<string>,
    excluded: string -> Option<Exclusion>, language: string -> string)

  datatype Settings = Settings(maximumBytes: nat, configRevision: string)

  function ExclusionClass(x: Exclusion): Classification {
    match x
    case GeneratedPath => Generated
    case VendoredPath => Vendored
    case ArchivePath => Unsupported
  }

  function LineBreaks(text: string): nat {
    if text == "" then 0 else (if text[0] == '\n' then 1 else 0) + LineBreaks(text[1..])
  }

  function LineCount(text: string): nat {
    if text == "" then 0 else LineBreaks(text) + 1
  }

  function OrElse(o: Option<nat>, d: nat): nat {
    if o.Some? then o.value else d
  }

  function Classify(tools: Tools, s: Settings, e: TreeEntry, bytes: Option<seq<int>>): Portable {
    var blank := Portable(e.objectId, None, OrElse(e.size, if bytes.Some? then |bytes.value| else 0), "unknown",
                          Unsupported, Skipped, PARSER_ID, PARSER_VERSION, s.configRevision, None);
    if e.kind.Symlink? then
      blank.(language := "symlink", classification := SymlinkEntry)
    else if e.kind.Submodule? then
      blank.(language := "submodule", classification := SubmoduleEntry)
    else if tools.excluded(e.path).Some? then
      blank.(classification := ExclusionClass(tools.excluded(e.path).value))
    else if OrElse(e.size, 0) > s.maximumBytes || bytes.None? then
      blank.(classification := Oversized)
    else
      var hashed := blank.(contentHash := Some(tools.digest(bytes.value)));
      if 0 in bytes.value || tools.decode(bytes.value).None? then
        hashed.(language := "binary", classification := Binary)
      else
        var counted := hashed.(lineCount := Some(LineCount(tools.decode(bytes.value).value)),
                               language := tools.language(e.path));
        if counted.language == "unknown" then counted
        else counted.(classification := Source, parseState := Parsed)
  }

  function FailedPortable(s: Settings, e: TreeEntry): Portable {
    Portable(e.objectId, None, OrElse(e.size, 0), "unknown", Unsupported, Failed,
             PARSER_ID, PARSER_VERSION, s.configRevision, None)
  }

  // --- reading -------------------------------------------------------------

  datatype BlobRead = Unreadable | Delivered(path: string, blobId: string, bytes: seq<int>, complete: bool)

  predicate NeedsBlob(s: Settings, e: TreeEntry) {
    e.kind.Blob? && OrElse(e.size, 0) <= s.maximumBytes
  }

  predicate OutOfScope(e: TreeEntry, read: BlobRead) {
    read.Delivered? && (read.path != e.path || read.blobId != e.objectId)
  }

  // Read when needed, then classify; a blob of another entry ends the run.
  function ReadAndClassify(tools: Tools, s: Settings, e: TreeEntry, read: BlobRead): Result<Portable> {
    if !NeedsBlob(s, e) then Ok(Classify(tools, s, e, None))
    else if read.Unreadable? then Ok(FailedPortable(s, e))
    else if OutOfScope(e, read) then Throws
    else if !read.complete then Ok(FailedPortable(s, e))
    else Ok(Classify(tools, s, e, Some(read.bytes)))
  }

  // --- what the repository really holds ------------------------------------

  // Content-addressed bytes, and the size a tree listing shows for an object.
  datatype Facts = Facts(content: string -> seq<int>, listedSize: string -> Option<nat>)

  ghost predicate Described(f: Facts, e: TreeEntry) {
    && e.size == f.listedSize(e.objectId)
    && (e.kind.Blob? && e.size.Some? ==> e.size.value == |f.content(e.objectId)|)
  }

  // A blob is delivered whole exactly when it fits, and never mislabelled.
  ghost predicate HonestRead(f: Facts, s: Settings, e: TreeEntry, read: BlobRead) {
    && !OutOfScope(e, read)
    && (if |f.content(e.objectId)| <= s.maximumBytes then
          read.Delivered? && read.complete && read.bytes == f.content(e.objectId)
        else
          read.Delivered? ==> !read.complete)
  }

  // A blob of unlisted size that turns out to be too large.
  predicate TooLargeToRead(f: Facts, s: Settings, e: TreeEntry) {
    e.kind.Blob? && e.size.None? && |f.content(e.objectId)| > s.maximumBytes
  }

  // The classification of an entry in terms of the repository's contents alone.
  function Fresh(f: Facts, tools: Tools, s: Settings, e: TreeEntry): Portable {
    if TooLargeToRead(f, s, e) then FailedPortable(s, e)
    else Classify(tools, s, e, if NeedsBlob(s, e) then Some(f.content(e.objectId)) else None)
  }

  lemma HonestReadGivesFresh(f: Facts, tools: Tools, s: Settings, e: TreeEntry, read: BlobRead)
    requires Described(f, e) && HonestRead(f, s, e, read)
    ensures ReadAndClassify(tools, s, e, read) == Ok(Fresh(f, tools, s, e))
  {
    hide Classify, FailedPortable;
    if NeedsBlob(s, e) && e.size.Some? {
      assert |f.content(e.objectId)| <= s.maximumBytes;
    }
  }

  lemma OnlyUnreadBlobsFail(f: Facts, tools: Tools, s: Settings, e: TreeEntry)
    ensures Fresh(f, tools, s, e).parseState.Failed? <==> TooLargeToRead(f, s, e)
    ensures Fresh(f, tools, s, e).parserId == PARSER_ID && Fresh(f, tools, s, e).parserVersion == PARSER_VERSION
    ensures Fresh(f, tools, s, e).configRevision == s.configRevision
    ensures Fresh(f, tools, s, e).sourceBlobId == e.objectId
  {
  }

  // --- the table of classifications ------------------------------------------------

  // A blob that may be read, by its listed size.
  ghost predicate Wanted(s: Settings, e: TreeEntry) {
    e.kind == Blob && (e.size.Some? ==> e.size.value <= s.maximumBytes)
  }

  // The reader hands over the whole blob of the entry.
  ghost predicate Gives(s: Settings, e: TreeEntry, read: BlobRead, bytes: seq<int>) {
    Wanted(s, e) && read == Delivered(e.path, e.objectId, bytes, true)
  }

  // Bytes that are looked at: those of an entry that its path does not exclude.
  ghost predicate Examines(tools: Tools, s: Settings, e: TreeEntry, read: BlobRead, bytes: seq<int>) {
    Gives(s, e, read, bytes) && tools.excluded(e.path) == None
  }

  ghost predicate Textual(tools: Tools, bytes: seq<int>) {
    (forall i :: 0 <= i < |bytes| ==> bytes[i] != 0) && tools.decode(bytes).Some?
  }

  // The reader answers for another entry.
  ghost predicate Mislabelled(s: Settings, e: TreeEntry, read: BlobRead) {
    Wanted(s, e) && read.Delivered? && !(read.path == e.path && read.blobId == e.objectId)
  }

  // The reader does not hand over the whole blob.
  ghost predicate Unfinished(s: Settings, e: TreeEntry, read: BlobRead) {
    Wanted(s, e) && (read.Unreadable? || (read.path == e.path && read.blobId == e.objectId && !read.complete))
  }

  // One more than the newlines of a text that is not empty.
  ghost function Lines(text: string): nat {
    if text == "" then 0 else 1 + multiset(text)['\n']
  }

  lemma {:induction false} LinesAreCounted(text: string)
    ensures LineBreaks(text) == multiset(text)['\n'] && LineCount(text) == Lines(text)
  {
    if text != "" {
      LinesAreCounted(text[1..]);
      assert text == [text[0]] + text[1..];
    }
  }

  ghost predicate ClassifiedAs(tools: Tools, s: Settings, e: TreeEntry, read: BlobRead, p: Portable) {
    && (p.classification == SymlinkEntry <==> e.kind == Symlink)
    && (p.classification == SubmoduleEntry <==> e.kind == Submodule)
    && (p.classification == Generated <==>
          e.kind == Blob && tools.excluded(e.path) == Some(GeneratedPath) && !Unfinished(s, e, read))
    && (p.classification == Vendored <==>
          e.kind == Blob && tools.excluded(e.path) == Some(VendoredPath) && !Unfinished(s, e, read))
    && (p.classification == Oversized <==> e.kind == Blob && tools.excluded(e.path) == None && !Wanted(s, e))
    && (p.classification == Binary <==>
          exists bytes :: Examines(tools, s, e, read, bytes) && !Textual(tools, bytes))
    && (p.classification == Source <==>
          tools.language(e.path) != "unknown" &&
          exists bytes :: Examines(tools, s, e, read, bytes) && Textual(tools, bytes))
    && (p.classification == Unsupported <==>
          || Unfinished(s, e, read)
          || (e.kind == Blob && tools.excluded(e.path) == Some(ArchivePath))
          || (tools.language(e.path) == "unknown" &&
              exists bytes :: Examines(tools, s, e, read, bytes) && Textual(tools, bytes)))
    && (p.parseState == Failed <==> Unfinished(s, e, read))
    && (p.parseState == Parsed <==> p.classification == Source)
  }

  ghost predicate IdentifiedAs(s: Settings, e: TreeEntry, read: BlobRead, p: Portable) {
    && p.sourceBlobId == e.objectId && p.parserId == PARSER_ID && p.parserVersion == PARSER_VERSION
    && p.configRevision == s.configRevision
    && (e.size.Some? ==> p.size == e.size.value)
    && (e.size.None? ==> p.size == 0 || exists bytes :: Gives(s, e, read, bytes) && p.size == |bytes|)
    && (forall bytes :: e.size.None? && Gives(s, e, read, bytes) ==> p.size == |bytes|)
  }

  ghost predicate DescribedAs(tools: Tools, s: Settings, e: TreeEntry, read: BlobRead, p: Portable) {
    && (p.contentHash.Some? <==> exists bytes :: Examines(tools, s, e, read, bytes))
    && (forall bytes :: Examines(tools, s, e, read, bytes) ==> p.contentHash == Some(tools.digest(bytes)))
    && (p.lineCount.Some? <==> exists bytes :: Examines(tools, s, e, read, bytes) && Textual(tools, bytes))
    && (forall bytes :: Examines(tools, s, e, read, bytes) && Textual(tools, bytes) ==>
          p.lineCount == Some(Lines(tools.decode(bytes).value)))
    && p.language ==
         if p.classification == Binary then "binary"
         else if e.kind == Symlink then "symlink"
         else if e.kind == Submodule then "submodule"
         else if p.lineCount.Some? then tools.language(e.path)
         else "unknown"
  }

  // What the classification of an entry is, for every answer of the reader.
  lemma ClassificationTable(tools: Tools, s: Settings, e: TreeEntry, read: BlobRead)
    ensures ReadAndClassify(tools, s, e, read).Throws? <==> Mislabelled(s, e, read)
    ensures ReadAndClassify(tools, s, e, read).Ok? ==>
              ClassifiedAs(tools, s, e, read, ReadAndClassify(tools, s, e, read).value)
  {
    if read.Delivered? && Gives(s, e, read, read.bytes) {
      assert Textual(tools, read.bytes) <==> 0 !in read.bytes && tools.decode(read.bytes).Some?;
      assert tools.excluded(e.path) == None ==> Examines(tools, s, e, read, read.bytes);
    }
  }

  lemma IdentityTable(tools: Tools, s: Settings, e: TreeEntry, read: BlobRead)
    requires ReadAndClassify(tools, s, e, read).Ok?
    ensures IdentifiedAs(s, e, read, ReadAndClassify(tools, s, e, read).value)
  {
    if read.Delivered? && Gives(s, e, read, read.bytes) {
    }
  }

  // Hash, line count and language.
  lemma DescriptionTable(tools: Tools, s: Settings, e: TreeEntry, read: BlobRead)
    requires ReadAndClassify(tools, s, e, read).Ok?
    ensures DescribedAs(tools, s, e, read, ReadAndClassify(tools, s, e, read).value)
  {
    hide LineCount;
    if read.Delivered? && Gives(s, e, read, read.bytes) {
      assert Textual(tools, read.bytes) <==> 0 !in read.bytes && tools.decode(read.bytes).Some?;
      assert tools.excluded(e.path) == None ==> Examines(tools, s, e, read, read.bytes);
      if tools.decode(read.bytes).Some? {
        LinesAreCounted(tools.decode(read.bytes).value);
      }
    }
  }
}
