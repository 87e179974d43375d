/**
 * src/components/MessageAttachment.tsx: how a message's media URL is shown. The extension is
 * taken from the path part of the URL; an image extension gives an inline image, anything
 * else a download link with an icon chosen by the extension's family.
 */
module MessageAttachment {
  import opened Text

  /** `url.split('?')[0]`: everything before the first '?'. */
  function BeforeQuery(s: string): (r: string)
    ensures |r| <= |s| && r == s[..|r|]
    ensures '?' !in r
    ensures |r| < |s| ==> s[|r|] == '?'
    decreases |s|
  {
    if s == [] || s[0] == '?' then [] else [s[0]] + BeforeQuery(s[1..])
  }

  /** `part.split('.').pop()`: everything after the last '.', or all of `s` without one. */
  function LastSegment(s: string): (r: string)
    ensures |r| <= |s| && r == s[|s| - |r|..]
    ensures '.' !in r
    ensures |r| < |s| ==> s[|s| - |r| - 1] == '.'
    ensures '.' !in s ==> r == s
    decreases |s|
  {
    if s == [] || s[|s| - 1] == '.' then []
    else
      var init := s[..|s| - 1];
      assert s == init + [s[|s| - 1]];
      LastSegment(init) + [s[|s| - 1]]
  }

  /** The lower-cased extension (`|| ''` changes nothing: `pop` always yields a string). */
  function Extension(url: string): (r: string)
    ensures '?' !in r && '.' !in r
    ensures forall i :: 0 <= i < |r| ==> !IsUpperAscii(r[i])
    ensures '.' !in BeforeQuery(url) ==> r == Lower(BeforeQuery(url))
  {
    var seg := LastSegment(BeforeQuery(url));
    var r := Lower(seg);
    assert forall i :: 0 <= i < |seg| ==> seg[i] in BeforeQuery(url) by {
      forall i | 0 <= i < |seg| ensures seg[i] in BeforeQuery(url) {
        var b := BeforeQuery(url);
        assert seg[i] == b[|b| - |seg| + i];
      }
    }
    assert forall i :: 0 <= i < |r| ==> r[i] != '?' && r[i] != '.';
    r
  }

  const ImageExtensions := ["jpg", "jpeg", "png", "gif", "webp", "bmp", "svg"]

  predicate IsImage(url: string) {
    Extension(url) in ImageExtensions
  }

  /** Lower-casing a string leaves its '?' where they were, and so its path part. */
  lemma {:induction false} BeforeQueryLower(s: string)
    ensures BeforeQuery(Lower(s)) == Lower(BeforeQuery(s))
    decreases |s|
  {
    if s != [] {
      assert Lower(s)[1..] == Lower(s[1..]);
      BeforeQueryLower(s[1..]);
      if s[0] != '?' {
        assert Lower([s[0]] + BeforeQuery(s[1..])) == [LowerChar(s[0])] + Lower(BeforeQuery(s[1..]));
      }
    }
  }

  /** Lower-casing a string leaves its '.' where they were, and so its last segment. */
  lemma {:induction false} LastSegmentLower(s: string)
    ensures LastSegment(Lower(s)) == Lower(LastSegment(s))
    decreases |s|
  {
    if s != [] {
      var init, last := s[..|s| - 1], s[|s| - 1];
      assert s == init + [last];
      LowerSnoc(init, last);
      var ls := Lower(s);
      if last == '.' {
        assert ls[|ls| - 1] == '.';
      } else {
        assert ls[|ls| - 1] != '.';
        LastSegmentLower(init);
        calc {
          LastSegment(ls);
          LastSegment(ls[..|ls| - 1]) + [ls[|ls| - 1]];
          LastSegment(Lower(init)) + [LowerChar(last)];
          { LowerSingle(last); }
          Lower(LastSegment(init)) + Lower([last]);
          { LowerAppend(LastSegment(init), [last]); }
          Lower(LastSegment(init) + [last]);
          Lower(LastSegment(s));
        }
      }
    }
  }

  /** Lower-casing a string splits at its last character. */
  lemma LowerSnoc(init: string, last: char)
    ensures var s := init + [last];
      Lower(s)[..|s| - 1] == Lower(init) && Lower(s)[|s| - 1] == LowerChar(last)
  {
  }

  lemma LowerSingle(c: char)
    ensures Lower([c]) == [LowerChar(c)]
  {
  }

  lemma LowerAppend(a: string, b: string)
    ensures Lower(a + b) == Lower(a) + Lower(b)
  {
  }

  /** The extension is the last segment of the lower-cased URL's path part. */
  lemma ExtensionViaLower(u: string)
    ensures Extension(u) == LastSegment(BeforeQuery(Lower(u)))
  {
    BeforeQueryLower(u);
    LastSegmentLower(BeforeQuery(u));
  }

  /**
   * The extension, and so the image test, depends only on the lower-cased URL: "PHOTO.PNG"
   * and "photo.png" are both images.
   */
  lemma ExtensionIgnoresCase(a: string, b: string)
    requires Lower(a) == Lower(b)
    ensures Extension(a) == Extension(b)
    ensures IsImage(a) <==> IsImage(b)
  {
    ExtensionViaLower(a);
    ExtensionViaLower(b);
  }

  /** The icon families of `getFileIcon`; the comments give the emoji shown. */
  datatype Icon =
    | Document   // 📄 pdf
    | Writing    // 📝 doc, docx
    | Sheet      // 📊 xls, xlsx
    | Slides     // 📋 ppt, pptx
    | Archive    // 🗜️ zip, rar, 7z
    | Audio      // 🎵 mp3, wav, ogg
    | Video      // 🎬 mp4, avi, mov
    | Paperclip  // 📎 anything else

  /** `getFileIcon`: each listed extension to its family, everything else to the paperclip. */
  function FileIcon(ext: string): (icon: Icon)
    ensures icon == Document <==> ext == "pdf"
    ensures icon == Writing <==> ext in ["doc", "docx"]
    ensures icon == Sheet <==> ext in ["xls", "xlsx"]
    ensures icon == Slides <==> ext in ["ppt", "pptx"]
    ensures icon == Archive <==> ext in ["zip", "rar", "7z"]
    ensures icon == Audio <==> ext in ["mp3", "wav", "ogg"]
    ensures icon == Video <==> ext in ["mp4", "avi", "mov"]
  {
    if ext == "pdf" then Document
    else if ext == "doc" || ext == "docx" then Writing
    else if ext == "xls" || ext == "xlsx" then Sheet
    else if ext == "ppt" || ext == "pptx" then Slides
    else if ext == "zip" || ext == "rar" || ext == "7z" then Archive
    else if ext == "mp3" || ext == "wav" || ext == "ogg" then Audio
    else if ext == "mp4" || ext == "avi" || ext == "mov" then Video
    else Paperclip
  }

  const DownloadPrefix := "Download file "

  /** The link text: the upper-cased extension in parentheses, only when there is one. */
  function DownloadLabel(ext: string): (r: string)
    ensures ext == "" ==> r == DownloadPrefix
    ensures ext != "" ==> r == DownloadPrefix + "(" + Upper(ext) + ")"
  {
    DownloadPrefix + (if ext != "" then "(" + Upper(ext) + ")" else "")
  }

  /** Reading the extension back out of the link text gives the extension that made it. */
  lemma DownloadLabelReadsBack(url: string)
    requires Extension(url) != ""
    ensures var shown := DownloadLabel(Extension(url));
      && |shown| > |DownloadPrefix| + 1
      && Lower(shown[|DownloadPrefix| + 1..|shown| - 1]) == Extension(url)
  {
    LabelReadsBack(Extension(url));
  }

  lemma LabelReadsBack(e: string)
    requires e != "" && forall i :: 0 <= i < |e| ==> !IsUpperAscii(e[i])
    ensures var shown := DownloadLabel(e);
      && |shown| > |DownloadPrefix| + 1
      && Lower(shown[|DownloadPrefix| + 1..|shown| - 1]) == e
  {
    var shown := DownloadLabel(e);
    assert shown[|DownloadPrefix| + 1..|shown| - 1] == Upper(e);
    LowerOfUpper(e);
  }

  datatype Rendered = Nothing | Image(src: string) | DownloadLink(href: string, icon: Icon, text: string)

  /** The component: nothing for an empty URL, an image, or else a download link. */
  function Render(url: string): (r: Rendered)
    ensures r.Nothing? <==> url == ""
    ensures r.Image? <==> url != "" && IsImage(url)
    ensures r.Image? ==> r.src == url
    ensures r.DownloadLink? ==>
      && r.href == url && r.icon == FileIcon(Extension(url)) && r.text == DownloadLabel(Extension(url))
  {
    if url == "" then Nothing
    else if IsImage(url) then Image(url)
    else DownloadLink(url, FileIcon(Extension(url)), DownloadLabel(Extension(url)))
  }

  /** A path ending in '.' has an empty extension: a download link labelled without one. */
  lemma TrailingDotIsDownload(url: string)
    requires BeforeQuery(url) != [] && BeforeQuery(url)[|BeforeQuery(url)| - 1] == '.'
    ensures Extension(url) == ""
    ensures Render(url) == DownloadLink(url, Paperclip, DownloadPrefix)
  {
    assert url != [];
  }
}
