/** The pure helpers of the shared-file list: the icon chosen from a file
    name's extension, the badge class of a download status, and the toggle of
    a row's expanded flag. */
module SharedFileList {
  import opened Types

  /** The last segment of the name split at '.': the text after the last
      '.', or the whole name when it has no '.'. */
  function Extension(name: string): (ext: string)
    ensures '.' !in ext
    ensures |ext| <= |name| && ext == name[|name| - |ext|..]
    ensures |ext| < |name| ==> name[|name| - |ext| - 1] == '.'
  {
    if |name| == 0 then ""
    else if name[|name| - 1] == '.' then ""
    else Extension(name[..|name| - 1]) + [name[|name| - 1]]
  }

  /** `toLowerCase` on one character (ASCII letters only). */
  function LowerChar(c: char): char
  {
    if 'A' <= c <= 'Z' then (c as int + ('a' as int - 'A' as int)) as char else c
  }

  function ToLower(s: string): (r: string)
    ensures |r| == |s|
    ensures forall i :: 0 <= i < |s| ==> r[i] == LowerChar(s[i])
  {
    if |s| == 0 then "" else ToLower(s[..|s| - 1]) + [LowerChar(s[|s| - 1])]
  }

  const DefaultIcon := "bi-file-earmark"

  /** The `switch` of `getFileIcon` on the lower-cased extension. */
  function IconFor(ext: string): string
  {
    if ext == "pdf" then "bi-file-pdf"
    else if ext == "doc" || ext == "docx" then "bi-file-word"
    else if ext == "xls" || ext == "xlsx" then "bi-file-excel"
    else if ext == "ppt" || ext == "pptx" then "bi-file-ppt"
    else if ext == "jpg" || ext == "jpeg" || ext == "png" || ext == "gif" then "bi-file-image"
    else if ext == "mp3" || ext == "wav" || ext == "ogg" then "bi-file-music"
    else if ext == "mp4" || ext == "avi" || ext == "mov" then "bi-file-play"
    else if ext == "zip" || ext == "rar" || ext == "7z" then "bi-file-zip"
    else DefaultIcon
  }

  /** Every extension the switch names. */
  const KnownExtensions: set<string> := {
    "pdf", "doc", "docx", "xls", "xlsx", "ppt", "pptx", "jpg", "jpeg", "png", "gif",
    "mp3", "wav", "ogg", "mp4", "avi", "mov", "zip", "rar", "7z"}

  /** Exactly the extensions outside the switch get the default icon. */
  lemma DefaultIconExactlyUnknown(ext: string)
    ensures IconFor(ext) == DefaultIcon <==> ext !in KnownExtensions
  {
  }

  /** The empty extension is not in the switch. */
  lemma EmptyIsUnknown(ext: string)
    requires |ext| == 0
    ensures IconFor(ext) == DefaultIcon
  {
  }

  lemma PdfIconExactly(ext: string)
    ensures IconFor(ext) == "bi-file-pdf" <==> ext == "pdf"
  {
  }

  lemma WordIconExactly(ext: string)
    ensures IconFor(ext) == "bi-file-word" <==> ext == "doc" || ext == "docx"
  {
  }

  lemma ExcelIconExactly(ext: string)
    ensures IconFor(ext) == "bi-file-excel" <==> ext == "xls" || ext == "xlsx"
  {
  }

  lemma PptIconExactly(ext: string)
    ensures IconFor(ext) == "bi-file-ppt" <==> ext == "ppt" || ext == "pptx"
  {
  }

  lemma ImageIconExactly(ext: string)
    ensures IconFor(ext) == "bi-file-image" <==> ext == "jpg" || ext == "jpeg" || ext == "png" || ext == "gif"
  {
  }

  lemma MusicIconExactly(ext: string)
    ensures IconFor(ext) == "bi-file-music" <==> ext == "mp3" || ext == "wav" || ext == "ogg"
  {
  }

  lemma PlayIconExactly(ext: string)
    ensures IconFor(ext) == "bi-file-play" <==> ext == "mp4" || ext == "avi" || ext == "mov"
  {
  }

  lemma ZipIconExactly(ext: string)
    ensures IconFor(ext) == "bi-file-zip" <==> ext == "zip" || ext == "rar" || ext == "7z"
  {
  }

  /** The icon of a file name: the switch applied to its lower-cased extension. */
  function FileIcon(filename: string): string
  {
    IconFor(ToLower(Extension(filename)))
  }

  /** A name ending in "." followed by a dot-free text has that text as its
      extension, whatever comes before. */
  lemma {:induction false} ExtensionAfterLastDot(prefix: string, ext: string)
    requires '.' !in ext
    ensures Extension(prefix + "." + ext) == ext
  {
    var name := prefix + "." + ext;
    if |ext| > 0 {
      var init := ext[..|ext| - 1];
      assert name[..|name| - 1] == prefix + "." + init;
      assert ext[|ext| - 1] in ext;
      ExtensionAfterLastDot(prefix, init);
      assert init + [ext[|ext| - 1]] == ext;
    }
  }

  /** The icon depends only on the text after the last '.'. */
  lemma FileIconUsesLastExtension(prefix: string, ext: string)
    requires '.' !in ext
    ensures FileIcon(prefix + "." + ext) == IconFor(ToLower(ext))
  {
    ExtensionAfterLastDot(prefix, ext);
  }

  /** A name without '.' is its own extension. */
  lemma {:induction false} ExtensionWithoutDot(name: string)
    requires '.' !in name
    ensures Extension(name) == name
  {
    if |name| > 0 {
      var init := name[..|name| - 1];
      assert name[|name| - 1] in name;
      assert forall c :: c in init ==> c in name;
      ExtensionWithoutDot(init);
      assert init + [name[|name| - 1]] == name;
    }
  }

  /** Lower-casing never creates or removes a '.', so it commutes with taking
      the extension. */
  lemma {:induction false} LowerCommutesWithExtension(name: string)
    ensures ToLower(Extension(name)) == Extension(ToLower(name))
  {
    if |name| > 0 {
      var init := name[..|name| - 1];
      assert ToLower(name)[..|name| - 1] == ToLower(init);
      if name[|name| - 1] != '.' {
        LowerCommutesWithExtension(init);
        assert ToLower(Extension(init) + [name[|name| - 1]])
            == ToLower(Extension(init)) + [LowerChar(name[|name| - 1])];
      }
    }
  }

  /** The lookup is case-insensitive: names equal up to letter case get the
      same icon. */
  lemma FileIconIgnoresCase(a: string, b: string)
    requires ToLower(a) == ToLower(b)
    ensures FileIcon(a) == FileIcon(b)
  {
    LowerCommutesWithExtension(a);
    LowerCommutesWithExtension(b);
  }

  /** Text with no upper-case letter is already lower case. */
  lemma LowerOfLower(s: string)
    requires forall i :: 0 <= i < |s| ==> !('A' <= s[i] <= 'Z')
    ensures ToLower(s) == s
  {
  }

  /** A lower-case extension after the last '.' is looked up as it is. */
  lemma FileIconOfLowerExtension(prefix: string, ext: string)
    requires '.' !in ext
    requires forall i :: 0 <= i < |ext| ==> !('A' <= ext[i] <= 'Z')
    ensures FileIcon(prefix + "." + ext) == IconFor(ext)
  {
    FileIconUsesLastExtension(prefix, ext);
    LowerOfLower(ext);
  }

  /** A dot-free name without upper-case letters is looked up whole. */
  lemma FileIconOfBareName(name: string)
    requires '.' !in name
    requires forall i :: 0 <= i < |name| ==> !('A' <= name[i] <= 'Z')
    ensures FileIcon(name) == IconFor(name)
  {
    ExtensionWithoutDot(name);
    LowerOfLower(name);
  }

  /** An upper-case extension gets the icon of its lower-case form: any name
      ending in ".PDF" is a PDF. */
  lemma UpperCasePdfIcon(stem: string)
    ensures FileIcon(stem + ".PDF") == "bi-file-pdf"
  {
    assert stem + ".PDF" == stem + "." + "PDF";
    FileIconUsesLastExtension(stem, "PDF");
    assert ToLower("PDF") == "pdf" by {
      assert ToLower("PDF")[0] == LowerChar('P');
    }
    PdfIconExactly("pdf");
  }

  /** A name without '.' is looked up whole: "pdf" is a PDF. */
  lemma BareExtensionIcon()
    ensures FileIcon("pdf") == "bi-file-pdf"
  {
    FileIconOfBareName("pdf");
    PdfIconExactly("pdf");
  }

  /** A name with nothing after its last '.', the empty name included, gets
      the default icon. */
  lemma EmptyExtensionIcon(name: string)
    requires |name| == 0 || name[|name| - 1] == '.'
    ensures FileIcon(name) == DefaultIcon
  {
    EmptyIsUnknown(ToLower(Extension(name)));
  }

  /** Only the last extension counts: any name ending in ".tar.zip" is a zip. */
  lemma LastExtensionIcon(stem: string)
    ensures FileIcon(stem + ".tar.zip") == "bi-file-zip"
  {
    assert stem + ".tar.zip" == (stem + ".tar") + "." + "zip";
    FileIconOfLowerExtension(stem + ".tar", "zip");
    ZipIconExactly("zip");
  }

  /** A lower-case extension outside the switch gets the default icon,
      whatever comes before its '.'. */
  lemma UnknownExtensionIcon(stem: string, ext: string)
    requires '.' !in ext
    requires forall i :: 0 <= i < |ext| ==> !('A' <= ext[i] <= 'Z')
    requires ext !in KnownExtensions
    ensures FileIcon(stem + "." + ext) == DefaultIcon
  {
    FileIconOfLowerExtension(stem, ext);
    DefaultIconExactlyUnknown(ext);
  }

  /** The badge class of a download status. */
  function StatusClass(status: Status): (c: string)
    ensures c == "bg-success" <==> status == Success
    ensures c == "bg-danger" <==> status == Failed
    ensures c == "bg-primary" <==> status == InProgress
  {
    match status
    case Success => "bg-success"
    case Failed => "bg-danger"
    case InProgress => "bg-primary"
  }

  /** Whether a row is expanded: a missing key reads as not expanded. */
  function Expanded(rows: map<string, bool>, hash: string): bool
  {
    hash in rows && rows[hash]
  }

  /** `toggleRow`: flips the entry for `hash` and keeps every other entry. */
  function ToggleRow(rows: map<string, bool>, hash: string): (r: map<string, bool>)
    ensures r.Keys == rows.Keys + {hash}
    ensures Expanded(r, hash) == !Expanded(rows, hash)
    ensures forall h :: h in rows && h != hash ==> r[h] == rows[h]
  {
    rows[hash := !Expanded(rows, hash)]
  }

  /** Toggling a row twice leaves every row's expanded flag as it was. */
  lemma ToggleRowTwice(rows: map<string, bool>, hash: string, h: string)
    ensures Expanded(ToggleRow(ToggleRow(rows, hash), hash), h) == Expanded(rows, h)
  {
  }
}
