/** The document list of the Documents page (src/pages/Documents.jsx): the search-and-filter view
    over the documents, and the upload handler that puts a placeholder record for every chosen
    file at the head of the list. */
module Documents {
  import opened Strings

  /** A document record. The human-readable size (`size`) is left out. */
  datatype Doc = Doc(id: int, name: string, description: string, kind: string, status: string,
                     tags: seq<string>, lastUpdated: string, version: string, fileType: string,
                     ocrProcessed: bool)

  /** `searchTerm` occurs, ignoring case, in the name or the description, and the type and status
      filters either are "All" or equal the document's. */
  predicate Matches(doc: Doc, term: string, kind: string, status: string) {
    (Contains(Lower(doc.name), Lower(term)) || Contains(Lower(doc.description), Lower(term))) &&
    (kind == "All" || doc.kind == kind) &&
    (status == "All" || doc.status == status)
  }

  /** `filteredDocuments`: the matching documents, in their order. */
  function Filter(docs: seq<Doc>, term: string, kind: string, status: string): (r: seq<Doc>)
    ensures |r| <= |docs|
    decreases |docs|
  {
    if docs == [] then []
    else (if Matches(docs[0], term, kind, status) then [docs[0]] else []) + Filter(docs[1..], term, kind, status)
  }

  /** A document is shown exactly when it is in the list and matches. */
  lemma {:induction false} FilterMembership(docs: seq<Doc>, term: string, kind: string, status: string, d: Doc)
    ensures d in Filter(docs, term, kind, status) <==> d in docs && Matches(d, term, kind, status)
    decreases |docs|
  {
    if docs != [] {
      FilterMembership(docs[1..], term, kind, status, d);
      assert docs == [docs[0]] + docs[1..];
    }
  }

  /** Filtering keeps the order: the filter of a concatenation is the concatenation of filters. */
  lemma {:induction false} FilterConcat(a: seq<Doc>, b: seq<Doc>, term: string, kind: string, status: string)
    ensures Filter(a + b, term, kind, status) == Filter(a, term, kind, status) + Filter(b, term, kind, status)
    decreases |a|
  {
    if a != [] {
      FilterConcat(a[1..], b, term, kind, status);
      assert (a + b)[0] == a[0] && (a + b)[1..] == a[1..] + b;
    } else {
      assert a + b == b;
    }
  }

  /** With an empty search and both filters on "All" every document is shown. */
  lemma {:induction false} EmptySearchShowsAll(docs: seq<Doc>)
    ensures Filter(docs, "", "All", "All") == docs
    decreases |docs|
  {
    if docs != [] {
      assert Lower("") == "";
      assert StartsWith(Lower(docs[0].name), "");
      EmptySearchShowsAll(docs[1..]);
    }
  }

  lemma LowerUpperChar(c: char)
    ensures LowerChar(UpperChar(c)) == LowerChar(c)
  {
  }

  /** Upper- and lower-case spellings of a search find the same documents. */
  lemma SearchIgnoresCase(doc: Doc, term: string, kind: string, status: string)
    ensures Matches(doc, Upper(term), kind, status) == Matches(doc, term, kind, status)
  {
    forall i | 0 <= i < |term| ensures Lower(Upper(term))[i] == Lower(term)[i] {
      LowerUpperChar(term[i]);
    }
    assert Lower(Upper(term)) == Lower(term);
  }

  /** `name.split('.').pop().toUpperCase()`: the upper-cased text after the last dot (the whole
      name when it has none). */
  function FileType(name: string): string {
    var fields := Split(name, '.');
    Upper(fields[|fields| - 1])
  }

  /** The file type never holds a dot. */
  lemma FileTypeHasNoDot(name: string)
    ensures '.' !in FileType(name)
  {
    SplitJoin(name, '.');
    var fields := Split(name, '.');
    var last := fields[|fields| - 1];
    assert '.' !in last;
    forall i | 0 <= i < |last| ensures UpperChar(last[i]) != '.' {}
  }

  lemma {:induction false} SplitWithoutSeparator(s: string, sep: char)
    requires sep !in s
    ensures Split(s, sep) == [s]
    decreases |s|
  {
    if s != [] {
      SplitWithoutSeparator(s[1..], sep);
      assert [s[0]] + s[1..] == s;
    }
  }

  /** The last field of `a + sep + b`, with no separator in `b`, is `b`. */
  lemma {:induction false} SplitLastField(a: string, sep: char, b: string)
    requires sep !in b
    ensures |Split(a + [sep] + b, sep)| >= 2
    ensures Split(a + [sep] + b, sep)[|Split(a + [sep] + b, sep)| - 1] == b
    decreases |a|
  {
    var s := a + [sep] + b;
    if a == [] {
      SplitWithoutSeparator(b, sep);
      assert s[1..] == b;
    } else {
      SplitLastField(a[1..], sep, b);
      assert s[1..] == a[1..] + [sep] + b;
    }
  }

  /** A name "stem.ext" whose extension has no dot gets the upper-cased extension as its type. */
  lemma FileTypeOfExtension(stem: string, ext: string)
    requires '.' !in ext
    ensures FileType(stem + "." + ext) == Upper(ext)
  {
    SplitLastField(stem, '.', ext);
  }

  /** The placeholder record made for the upload of file `name` with id `id`. */
  function NewDoc(id: int, name: string): Doc {
    Doc(id, name, "Processing document...", "Document", "Under Review", ["New"], "Just now", "v1.0",
        FileType(name), false)
  }

  /** The placeholder records for `files`, numbered from `base + 1` in file order. */
  function NewDocs(base: int, files: seq<string>): (r: seq<Doc>)
    ensures |r| == |files|
    ensures forall i :: 0 <= i < |files| ==> r[i] == NewDoc(base + i + 1, files[i])
  {
    seq(|files|, i requires 0 <= i < |files| => NewDoc(base + i + 1, files[i]))
  }

  function Reverse<T>(s: seq<T>): (r: seq<T>)
    ensures |r| == |s|
    ensures forall k :: 0 <= k < |s| ==> r[k] == s[|s| - 1 - k]
    decreases |s|
  {
    if s == [] then [] else [s[|s| - 1]] + Reverse(s[..|s| - 1])
  }

  lemma ReverseSnoc<T>(s: seq<T>, i: int)
    requires 0 <= i < |s|
    ensures Reverse(s[..i + 1]) == [s[i]] + Reverse(s[..i])
  {
    assert s[..i + 1][..i] == s[..i];
  }

  /** One turn of the upload loop: the record put in front is the next one of `s`. */
  lemma PrependStep<T>(s: seq<T>, i: int, rest: seq<T>, x: T)
    requires 0 <= i < |s| && x == s[i]
    ensures [x] + (Reverse(s[..i]) + rest) == Reverse(s[..i + 1]) + rest
  {
    ReverseSnoc(s, i);
  }

  /** The list after uploading `files`: each file's record was put in front in turn, so the
      last file's record comes first, and the old list follows unchanged. */
  function Uploaded(docs: seq<Doc>, files: seq<string>): seq<Doc> {
    Reverse(NewDocs(|docs|, files)) + docs
  }

  /** Ids are 1 .. the number of documents, each used once. */
  predicate IdsValid(docs: seq<Doc>) {
    (forall i :: 0 <= i < |docs| ==> 1 <= docs[i].id <= |docs|) &&
    (forall i, j :: 0 <= i < j < |docs| ==> docs[i].id != docs[j].id)
  }

  /** An upload keeps the ids numbered 1 .. n without repeats. */
  lemma UploadKeepsIdsValid(docs: seq<Doc>, files: seq<string>)
    requires IdsValid(docs)
    ensures IdsValid(Uploaded(docs, files))
  {
    var r := Uploaded(docs, files);
    var n := |files|;
    forall i | 0 <= i < |r| ensures (i < n ==> r[i].id == |docs| + n - i) && (i >= n ==> r[i] == docs[i - n]) {
      if i < n {
        assert r[i] == Reverse(NewDocs(|docs|, files))[i];
      }
    }
  }

  /** When the upload loop has gone through every file, the list is the uploaded one. */
  lemma UploadLoopDone(before: seq<Doc>, files: seq<string>, docs: seq<Doc>)
    requires IdsValid(before)
    requires docs == Reverse(NewDocs(|before|, files)[..|files|]) + before
    ensures docs == Uploaded(before, files) && IdsValid(docs)
  {
    assert NewDocs(|before|, files)[..|files|] == NewDocs(|before|, files);
    UploadKeepsIdsValid(before, files);
  }

  /** The upload adds one record per file, the newest first, every one with the placeholder
      description, and leaves the old records as they were behind them. */
  lemma UploadedShape(docs: seq<Doc>, files: seq<string>)
    ensures |Uploaded(docs, files)| == |docs| + |files|
    ensures Uploaded(docs, files)[|files|..] == docs
    ensures files != [] ==> Uploaded(docs, files)[0] == NewDoc(|docs| + |files|, files[|files| - 1])
    ensures forall i :: 0 <= i < |files| ==>
      Uploaded(docs, files)[i].description == "Processing document..." &&
      Uploaded(docs, files)[i].name == files[|files| - 1 - i] && !Uploaded(docs, files)[i].ocrProcessed
  {
    var r := Uploaded(docs, files);
    forall i | 0 <= i < |files| ensures r[i] == NewDoc(|docs| + |files| - i, files[|files| - 1 - i]) {
      assert r[i] == Reverse(NewDocs(|docs|, files))[i];
    }
  }

  /** The state of the page that the upload changes. The progress bar's intermediate values are
      fractions and are left out; only its final value is kept. */
  class DocumentsPage {
    var documents: seq<Doc>
    var selectedFiles: seq<string>
    var isUploading: bool
    var uploadProgress: int

    predicate Valid()
      reads this
    {
      IdsValid(documents)
    }

    /** The page starts from a list of records numbered 1 .. n. */
    constructor (initial: seq<Doc>)
      requires IdsValid(initial)
      ensures Valid()
      ensures documents == initial && selectedFiles == [] && !isUploading && uploadProgress == 0
    {
      documents := initial;
      selectedFiles := [];
      isUploading := false;
      uploadProgress := 0;
    }

    /** `handleUpload`: one placeholder record per file, each put in front of the list. The
        functional updates React queues are gathered in `docs` and take effect together. */
    method Upload(files: seq<string>)
      requires Valid()
      modifies this
      ensures Valid()
      ensures documents == Uploaded(old(documents), files)
      ensures !isUploading && uploadProgress == 100 && selectedFiles == []
    {
      isUploading := true;
      uploadProgress := 0;
      var docs := documents;
      var base := |docs|;
      var i := 0;
      while i < |files|
        invariant 0 <= i <= |files|
        invariant docs == Reverse(NewDocs(base, files)[..i]) + old(documents)
      {
        var newDoc := NewDoc(base + i + 1, files[i]);
        PrependStep(NewDocs(base, files), i, old(documents), newDoc);
        docs := [newDoc] + docs;
        i := i + 1;
      }
      UploadLoopDone(old(documents), files, docs);
      documents := docs;
      isUploading := false;
      uploadProgress := 100;
      selectedFiles := [];
    }

    /** `handleFileSelect`: an empty selection does nothing; otherwise the files are uploaded. */
    method SelectFiles(files: seq<string>)
      requires Valid()
      modifies this
      ensures Valid()
      ensures files == [] ==> (documents == old(documents) && selectedFiles == old(selectedFiles) &&
                               isUploading == old(isUploading) && uploadProgress == old(uploadProgress))
      ensures files != [] ==> documents == Uploaded(old(documents), files) && selectedFiles == []
      ensures files != [] ==> !isUploading && uploadProgress == 100
    {
      if |files| > 0 {
        selectedFiles := files;
        Upload(files);
      }
    }
  }
}
