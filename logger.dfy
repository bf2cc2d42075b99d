/** The text logger and the folder listing filter of utilities/logger.py. */
module Logger {
  import opened Wrappers
  import opened Paths
  import opened Storage

  /** The line `log` writes before the message when it starts a file afresh. */
  const Separator: string := "----------------------------------------------"

  /** What a log file holds before a write; a missing file reads as empty, as mode 'a' creates it. */
  function Prior(texts: map<string, string>, logFile: string): string {
    if logFile in texts then texts[logFile] else ""
  }

  /** The content of the log file after one `log(msg, ..., header)`. */
  function Logged(prior: string, msg: string, header: bool): string {
    if header then Separator + "\n" + msg + "\n" else prior + msg + "\n"
  }

  /** The text file map after one `log` call. */
  function LogTexts(texts: map<string, string>, logFile: string, msg: string, header: bool): map<string, string> {
    texts[logFile := Logged(Prior(texts, logFile), msg, header)]
  }

  /**
   * log(msg, log_file, header, print_msg): overwrite with the separator and the message
   * when `header` is set, otherwise append the message; `print_msg` only decides whether
   * the message also goes to the console.
   */
  method Log(fs: FileSystem, msg: string, logFile: string, header: bool, printMsg: bool) returns (console: seq<string>)
    modifies fs
    ensures fs.disk.texts == LogTexts(old(fs.disk.texts), logFile, msg, header)
    ensures fs.disk.rasters == old(fs.disk.rasters)
    ensures console == if printMsg then [msg] else []
  {
    if header {
      fs.disk := fs.disk.(texts := fs.disk.texts[logFile := Separator + "\n" + msg + "\n"]);
    } else {
      var before := if logFile in fs.disk.texts then fs.disk.texts[logFile] else "";
      fs.disk := fs.disk.(texts := fs.disk.texts[logFile := before + msg + "\n"]);
    }
    console := if printMsg then [msg] else [];
  }

  /** With a header, the file ends up holding the separator line and the message whatever it held before. */
  lemma HeaderOverwrites(texts: map<string, string>, logFile: string, msg: string)
    ensures LogTexts(texts, logFile, msg, true)[logFile] == Separator + "\n" + msg + "\n"
    ensures forall f :: f in texts && f != logFile ==> LogTexts(texts, logFile, msg, true)[f] == texts[f]
  {
  }

  /** Logging the same header message twice leaves what logging it once leaves. */
  lemma HeaderIdempotent(texts: map<string, string>, logFile: string, msg: string)
    ensures LogTexts(LogTexts(texts, logFile, msg, true), logFile, msg, true) == LogTexts(texts, logFile, msg, true)
  {
  }

  /** Without a header, the old content stays as it was and the message and a newline follow it. */
  lemma AppendExtends(texts: map<string, string>, logFile: string, msg: string)
    ensures var t := LogTexts(texts, logFile, msg, false)[logFile];
      |t| == |Prior(texts, logFile)| + |msg| + 1 &&
      t[..|Prior(texts, logFile)|] == Prior(texts, logFile) &&
      t[|Prior(texts, logFile)|..] == msg + "\n"
  {
  }

  /** The text that a run of appends adds: each message followed by a newline. */
  function Unlines(msgs: seq<string>): string {
    if msgs == [] then "" else msgs[0] + "\n" + Unlines(msgs[1..])
  }

  lemma {:induction false} UnlinesAppend(a: seq<string>, b: seq<string>)
    ensures Unlines(a + b) == Unlines(a) + Unlines(b)
  {
    if a == [] {
      assert a + b == b;
    } else {
      assert (a + b)[1..] == a[1..] + b;
      UnlinesAppend(a[1..], b);
    }
  }

  /** One more append adds one more line. */
  lemma LoggedSnoc(prior: string, msgs: seq<string>, msg: string)
    ensures Logged(prior + Unlines(msgs), msg, false) == prior + Unlines(msgs + [msg])
  {
    UnlinesAppend(msgs, [msg]);
    assert Unlines([msg]) == msg + "\n" + Unlines([]);
  }

  predicate SingleLine(s: string) {
    '\n' !in s
  }

  /** Length of the first line of `s`. */
  function LineEnd(s: string): (i: nat)
    ensures i <= |s|
    ensures forall k :: 0 <= k < i ==> s[k] != '\n'
    ensures i < |s| ==> s[i] == '\n'
  {
    if |s| == 0 || s[0] == '\n' then 0 else 1 + LineEnd(s[1..])
  }

  /** Python's `str.splitlines()` for text whose only line break is '\n'. */
  function SplitLines(s: string): seq<string>
    decreases |s|
  {
    if s == [] then []
    else
      var i := LineEnd(s);
      if i == |s| then [s] else [s[..i]] + SplitLines(s[i + 1..])
  }

  lemma LineEndOfLine(m: string, rest: string)
    requires SingleLine(m)
    ensures LineEnd(m + "\n" + rest) == |m|
  {
    var s := m + "\n" + rest;
    assert s[|m|] == '\n';
    assert forall k :: 0 <= k < |m| ==> s[k] == m[k];
  }

  /** Reading the appended text back line by line gives the messages, one line each. */
  lemma {:induction false} SplitUnlines(msgs: seq<string>)
    requires forall k :: 0 <= k < |msgs| ==> SingleLine(msgs[k])
    ensures SplitLines(Unlines(msgs)) == msgs
  {
    if msgs != [] {
      var rest := Unlines(msgs[1..]);
      var s := msgs[0] + "\n" + rest;
      LineEndOfLine(msgs[0], rest);
      assert s[..|msgs[0]|] == msgs[0];
      assert s[|msgs[0]| + 1..] == rest;
      SplitUnlines(msgs[1..]);
      assert msgs == [msgs[0]] + msgs[1..];
    }
  }

  // --- files_from_folder -----------------------------------------------------------

  function Filter(xs: seq<string>, keep: string -> bool): (r: seq<string>)
    ensures |r| <= |xs|
    ensures forall x :: x in r <==> x in xs && keep(x)
  {
    if xs == [] then []
    else if keep(xs[0]) then [xs[0]] + Filter(xs[1..], keep)
    else Filter(xs[1..], keep)
  }

  function JoinEach(folder: string, names: seq<string>): (r: seq<string>)
    ensures |r| == |names|
    ensures forall k :: 0 <= k < |r| ==> r[k] == Join(folder, names[k])
  {
    if names == [] then [] else [Join(folder, names[0])] + JoinEach(folder, names[1..])
  }

  /**
   * files_from_folder(folder, ext, tag) over the entries `listing` that os.listdir(folder)
   * returns, in that order: each entry joined to the folder, keeping those that end with
   * `ext` and contain `tag` when these are given.
   */
  function FilesFromFolder(folder: string, listing: seq<string>, ext: Option<string>, tag: Option<string>): seq<string> {
    if ext.None? && tag.None? then JoinEach(folder, listing)
    else if ext.Some? && tag.None? then JoinEach(folder, Filter(listing, f => EndsWith(f, ext.value)))
    else if ext.None? && tag.Some? then JoinEach(folder, Filter(listing, f => Contains(f, tag.value)))
    else JoinEach(folder, Filter(listing, f => Contains(f, tag.value) && EndsWith(f, ext.value)))
  }

  /** The entry test the four branches of files_from_folder agree on. */
  predicate Wanted(f: string, ext: Option<string>, tag: Option<string>) {
    (ext.None? || EndsWith(f, ext.value)) && (tag.None? || Contains(f, tag.value))
  }

  lemma {:induction false} FilterSame(xs: seq<string>, p: string -> bool, q: string -> bool)
    requires forall x :: p(x) == q(x)
    ensures Filter(xs, p) == Filter(xs, q)
  {
    if xs != [] {
      FilterSame(xs[1..], p, q);
    }
  }

  /** Every branch keeps exactly the wanted entries, in listing order. */
  lemma FilesFromFolderWanted(folder: string, listing: seq<string>, ext: Option<string>, tag: Option<string>)
    ensures FilesFromFolder(folder, listing, ext, tag) == JoinEach(folder, Filter(listing, f => Wanted(f, ext, tag)))
  {
    var w := f => Wanted(f, ext, tag);
    if ext.None? && tag.None? {
      FilterAll(listing, w);
    } else if ext.Some? && tag.None? {
      FilterSame(listing, f => EndsWith(f, ext.value), w);
    } else if ext.None? && tag.Some? {
      FilterSame(listing, f => Contains(f, tag.value), w);
    } else {
      FilterSame(listing, f => Contains(f, tag.value) && EndsWith(f, ext.value), w);
    }
  }

  lemma {:induction false} FilterAll(xs: seq<string>, p: string -> bool)
    requires forall x :: p(x)
    ensures Filter(xs, p) == xs
  {
    if xs != [] {
      FilterAll(xs[1..], p);
    }
  }

  /** `a` is `b` with some elements left out, the rest in their order. */
  predicate IsSubsequence(a: seq<string>, b: seq<string>)
    decreases |b|
  {
    if a == [] then true
    else if b == [] then false
    else if a[0] == b[0] then IsSubsequence(a[1..], b[1..])
    else IsSubsequence(a, b[1..])
  }

  lemma {:induction false} JoinFilterSubsequence(folder: string, xs: seq<string>, p: string -> bool)
    ensures IsSubsequence(JoinEach(folder, Filter(xs, p)), JoinEach(folder, xs))
  {
    if xs != [] {
      JoinFilterSubsequence(folder, xs[1..], p);
      var rest := JoinEach(folder, xs[1..]);
      assert JoinEach(folder, xs) == [Join(folder, xs[0])] + rest;
      if p(xs[0]) {
        var a := JoinEach(folder, Filter(xs, p));
        assert a == [Join(folder, xs[0])] + JoinEach(folder, Filter(xs[1..], p));
        assert a[1..] == JoinEach(folder, Filter(xs[1..], p));
      } else {
        SubsequenceCons(JoinEach(folder, Filter(xs[1..], p)), rest, Join(folder, xs[0]));
      }
    }
  }

  lemma {:induction false} SubsequenceCons(a: seq<string>, b: seq<string>, x: string)
    requires IsSubsequence(a, b)
    ensures IsSubsequence(a, [x] + b)
    decreases |b|, 1
  {
    assert ([x] + b)[1..] == b;
    if a != [] && a[0] == x {
      SubsequenceDropHead(a, b);
    }
  }

  lemma {:induction false} SubsequenceDropHead(a: seq<string>, b: seq<string>)
    requires a != [] && IsSubsequence(a, b)
    ensures IsSubsequence(a[1..], b)
    decreases |b|, 0
  {
    assert b != [];
    assert [b[0]] + b[1..] == b;
    if a[0] == b[0] {
      SubsequenceCons(a[1..], b[1..], b[0]);
    } else {
      SubsequenceDropHead(a, b[1..]);
      SubsequenceCons(a[1..], b[1..], b[0]);
    }
  }

  /**
   * The filtered listings are part of the unfiltered one, in its order, and hold exactly
   * the wanted entries joined to the folder.
   */
  lemma FilesFromFolderSelects(folder: string, listing: seq<string>, ext: Option<string>, tag: Option<string>)
    ensures IsSubsequence(FilesFromFolder(folder, listing, ext, tag), FilesFromFolder(folder, listing, None, None))
    ensures forall p :: p in FilesFromFolder(folder, listing, ext, tag) <==>
      exists f :: f in listing && Wanted(f, ext, tag) && p == Join(folder, f)
  {
    var w := f => Wanted(f, ext, tag);
    FilesFromFolderWanted(folder, listing, ext, tag);
    JoinFilterSubsequence(folder, listing, w);
    var kept := Filter(listing, w);
    forall p ensures p in JoinEach(folder, kept) <==> exists f :: f in listing && Wanted(f, ext, tag) && p == Join(folder, f) {
      if p in JoinEach(folder, kept) {
        var k :| 0 <= k < |kept| && JoinEach(folder, kept)[k] == p;
        assert kept[k] in kept;
      }
      if exists f :: f in listing && Wanted(f, ext, tag) && p == Join(folder, f) {
        var f :| f in listing && Wanted(f, ext, tag) && p == Join(folder, f);
        assert w(f);
        var k :| 0 <= k < |kept| && kept[k] == f;
        assert JoinEach(folder, kept)[k] == p;
      }
    }
  }
}
