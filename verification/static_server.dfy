/** The request handler and start-up helper of the static file server
    (server.js): a URL is mapped to a file path under the working directory,
    the path's extension picks a content type, and the result of reading the
    file is turned into a 200, 404 or 500 response. `getLocalIP` picks the
    address shown in the start-up banner. The file system and the network
    interface list are inputs. */
module StaticServer {
  import opened JsText

  /** The file path for a request URL (server.js:38-41): the URL below `.`,
      with `/` standing for `./index.html`. */
  function FilePath(url: string): (p: string)
    ensures url == "/" ==> p == "./index.html"
    ensures url != "/" ==> p == "." + url
  {
    var p := "." + url;
    if p == "./" then
      assert url == p[1..];
      "./index.html"
    else p
  }

  // ---------------------------------------------------------------------
  // path.extname (POSIX), modelled after Node's own algorithm

  /** The path without the slashes it ends with. */
  function TrimTrailingSlashes(p: string): (t: string)
    ensures |t| <= |p| && t == p[..|t|]
    ensures t == [] || t[|t| - 1] != '/'
  {
    if p != [] && p[|p| - 1] == '/' then TrimTrailingSlashes(p[..|p| - 1]) else p
  }

  /** What follows the last slash of `t`. */
  function AfterLastSlash(t: string): (b: string)
    ensures |b| <= |t| && b == t[|t| - |b|..]
    ensures '/' !in b
    ensures |b| < |t| ==> t[|t| - |b| - 1] == '/'
  {
    if t == [] || t[|t| - 1] == '/' then []
    else AfterLastSlash(t[..|t| - 1]) + [t[|t| - 1]]
  }

  /** The last path segment, trailing slashes ignored. */
  function Basename(p: string): string {
    AfterLastSlash(TrimTrailingSlashes(p))
  }

  /** Index of the last dot of `b`. */
  function LastDot(b: string): (r: Option<nat>)
    ensures r.Some? ==> r.value < |b| && b[r.value] == '.' && '.' !in b[r.value + 1..]
    ensures r.None? ==> '.' !in b
  {
    if b == [] then None
    else if b[|b| - 1] == '.' then Some(|b| - 1)
    else
      var r := LastDot(b[..|b| - 1]);
      assert r.Some? ==> b[r.value + 1..] == b[..|b| - 1][r.value + 1..] + [b[|b| - 1]];
      assert b == b[..|b| - 1] + [b[|b| - 1]];
      r
  }

  /** `path.extname`: from the last dot of the last segment to its end; empty
      when that segment has no dot, when its only leading character is the
      dot (`.bashrc`), or when it is `..`. */
  function Extname(p: string): string {
    var b := Basename(p);
    match LastDot(b)
    case None => ""
    case Some(k) => if k == 0 || b == ".." then "" else b[k..]
  }

  /** An extension is empty, or a dot followed by neither slash nor dot,
      and it ends the path once its trailing slashes are dropped. */
  lemma ExtnameShape(p: string)
    ensures var e := Extname(p);
      && (e == "" || (e[0] == '.' && '/' !in e && '.' !in e[1..]))
      && (e != "" ==> var t := TrimTrailingSlashes(p); |e| < |t| && e == t[|t| - |e|..])
  {
    var t := TrimTrailingSlashes(p);
    var b := AfterLastSlash(t);
    var d := LastDot(b);
    if d.Some? && d.value != 0 && b != ".." {
      ExtensionParts(t, b, d.value);
    }
  }

  lemma ExtensionParts(t: string, b: string, k: nat)
    requires |b| <= |t| && b == t[|t| - |b|..] && '/' !in b
    requires 0 < k < |b| && b[k] == '.' && '.' !in b[k + 1..]
    ensures var e := b[k..];
      && e[0] == '.' && '/' !in e && '.' !in e[1..]
      && |e| < |t| && e == t[|t| - |e|..]
  {
    var e := b[k..];
    assert e[1..] == b[k + 1..];
    assert forall i :: 0 <= i < |e| ==> e[i] == b[k + i];
  }

  // ---------------------------------------------------------------------
  // Content type

  const MimeTypes: map<string, string> := map[
    ".html" := "text/html",
    ".css" := "text/css",
    ".js" := "application/javascript",
    ".json" := "application/json",
    ".png" := "image/png",
    ".jpg" := "image/jpeg",
    ".gif" := "image/gif",
    ".svg" := "image/svg+xml",
    ".ico" := "image/x-icon"]

  const DefaultContentType: string := "application/octet-stream"

  /** `mimeTypes[ext.toLowerCase()] || 'application/octet-stream'`
      (server.js:43-44). An extension is empty or starts with a dot, so the
      lookup never reaches a property inherited from `Object.prototype`, and
      every table entry is a non-empty string. */
  function ContentTypeOf(ext: string): (t: string)
    ensures t == DefaultContentType <==> ToLower(ext) !in MimeTypes
    ensures t in MimeTypes.Values || t == DefaultContentType
  {
    var key := ToLower(ext);
    if key in MimeTypes && MimeTypes[key] != "" then MimeTypes[key] else DefaultContentType
  }

  function ContentType(filePath: string): string {
    ContentTypeOf(Extname(filePath))
  }

  predicate UpperOf(u: char, l: char) {
    'a' <= l <= 'z' && u as int == l as int - 32
  }

  /** Case-insensitive lookup: any extension that spells a listed one with
      some of its letters in upper case gets that entry's content type. */
  lemma AnyCaseOfListedExtension(ext: string, key: string)
    requires key in MimeTypes
    requires |ext| == |key|
    requires forall i :: 0 <= i < |ext| ==> ext[i] == key[i] || UpperOf(ext[i], key[i])
    ensures ContentTypeOf(ext) == MimeTypes[key]
  {
    KeysAreLowerCase(key);
    var lowered := ToLower(ext);
    forall i | 0 <= i < |ext| ensures lowered[i] == key[i] {
      assert key[i] == '.' || 'a' <= key[i] <= 'z';
    }
    assert lowered == key;
  }

  /** Every key of the table is a dot and lower-case ASCII letters. */
  lemma KeysAreLowerCase(key: string)
    requires key in MimeTypes
    ensures forall i :: 0 <= i < |key| ==> key[i] == '.' || 'a' <= key[i] <= 'z'
  {
  }

  lemma {:induction false} AfterLastSlashOf(dir: string, seg: string)
    requires '/' !in seg
    ensures AfterLastSlash(dir + "/" + seg) == seg
    decreases |seg|
  {
    var p := dir + "/" + seg;
    if seg == [] {
      assert p[|p| - 1] == '/';
    } else {
      var init := seg[..|seg| - 1];
      assert p[..|p| - 1] == dir + "/" + init;
      assert p[|p| - 1] == seg[|seg| - 1];
      AfterLastSlashOf(dir, init);
      assert init + [seg[|seg| - 1]] == seg;
    }
  }

  lemma {:induction false} LastDotOf(stem: string, ext: string)
    requires |ext| >= 1 && ext[0] == '.' && '.' !in ext[1..]
    ensures LastDot(stem + ext) == Some(|stem|)
    decreases |ext|
  {
    var b := stem + ext;
    if |ext| == 1 {
      assert b[|b| - 1] == '.';
    } else {
      var init := ext[..|ext| - 1];
      assert ext[|ext| - 1] in ext[1..];
      assert b[|b| - 1] == ext[|ext| - 1];
      assert init[1..] == ext[1..|ext| - 1];
      assert '.' !in init[1..] by {
        forall i | 1 <= i < |init| ensures init[i] != '.' {
          assert init[i] == ext[1..][i - 1];
        }
      }
      LastDotOf(stem, init);
      assert b[..|b| - 1] == stem + init;
    }
  }

  lemma BasenameOf(dir: string, seg: string)
    requires '/' !in seg && seg != ""
    ensures Basename(dir + "/" + seg) == seg
  {
    var p := dir + "/" + seg;
    assert p[|p| - 1] == seg[|seg| - 1];
    assert TrimTrailingSlashes(p) == p;
    AfterLastSlashOf(dir, seg);
  }

  predicate SegmentParts(stem: string, ext: string) {
    && '/' !in stem && stem != ""
    && |ext| >= 1 && ext[0] == '.' && '/' !in ext && '.' !in ext[1..]
    && !(stem == "." && ext == ".")
  }

  /** The extension of a path whose last segment is `stem + ext`, where `ext`
      is a dot followed by no dot and no slash, and `stem` is neither empty
      nor the `.` of `..`. */
  lemma ExtnameOfSegment(dir: string, stem: string, ext: string)
    requires SegmentParts(stem, ext)
    ensures Extname(dir + "/" + stem + ext) == ext
  {
    var seg := stem + ext;
    SegmentHasNoSlash(stem, ext);
    assert dir + "/" + stem + ext == dir + "/" + seg;
    BasenameOf(dir, seg);
    LastDotOf(stem, ext);
    NotDotDot(stem, ext);
    assert seg[|stem|..] == ext;
  }

  lemma NotDotDot(stem: string, ext: string)
    requires SegmentParts(stem, ext)
    ensures stem + ext != ".."
  {
    var seg := stem + ext;
    if |seg| == 2 {
      assert |stem| == 1 && |ext| == 1;
      assert ext == [ext[0]] == ".";
      assert stem == [stem[0]] && stem[0] != '.';
      assert seg[0] == stem[0];
    }
  }

  lemma SegmentHasNoSlash(stem: string, ext: string)
    requires '/' !in stem && '/' !in ext
    ensures '/' !in stem + ext
  {
    var seg := stem + ext;
    forall i | 0 <= i < |seg| ensures seg[i] != '/' {
      if i < |stem| { assert seg[i] == stem[i]; } else { assert seg[i] == ext[i - |stem|]; }
    }
  }

  lemma IndexHtmlParts()
    ensures SegmentParts("index", ".html") && "./index.html" == "." + "/" + "index" + ".html"
    ensures SegmentParts("INDEX", ".HTML") && "./INDEX.HTML" == "." + "/" + "INDEX" + ".HTML"
  {
    assert '/' !in "index" && '/' !in "INDEX";
    assert ".html"[0] == '.' && '/' !in ".html" && '.' !in ".html"[1..];
    assert ".HTML"[0] == '.' && '/' !in ".HTML" && '.' !in ".HTML"[1..];
  }

  lemma HtmlInAnyCase()
    ensures ContentTypeOf(".html") == "text/html"
    ensures ContentTypeOf(".HTML") == "text/html"
  {
    var upper := ToLower(".HTML");
    assert upper[0] == '.' && upper[1] == 'h' && upper[2] == 't' && upper[3] == 'm' && upper[4] == 'l';
    assert upper == ".html";
    var lower := ToLower(".html");
    assert lower[0] == '.' && lower[1] == 'h' && lower[2] == 't' && lower[3] == 'm' && lower[4] == 'l';
    assert lower == ".html";
  }

  /** `.HTML` is served as `text/html`: the extension is lowered first. */
  lemma UpperCaseHtml()
    ensures ContentType("./INDEX.HTML") == "text/html"
  {
    IndexHtmlParts();
    ExtnameOfSegment(".", "INDEX", ".HTML");
    HtmlInAnyCase();
  }

  // ---------------------------------------------------------------------
  // Responses

  /** Outcome of `fs.readFile`: the file's bytes, or an error with its code. */
  datatype ReadResult = FileContent(content: seq<bv8>) | ReadError(code: string)

  /** A body is either text written as UTF-8 or the file's bytes as read. */
  datatype Body = Text(text: string) | Bytes(bytes: seq<bv8>)

  datatype Response = Response(status: nat, headers: map<string, string>, body: Body)

  const NotFoundBody: string := "<h1>404 - File Not Found</h1>"

  /** The `fs.readFile` callback (server.js:46-59). Status codes follow RFC
      9110: 200 OK (section 15.3.1) for a file that was read, 404 Not Found
      (section 15.5.5) for a missing one, 500 Internal Server Error (section
      15.6.1) for any other failure. */
  function Respond(contentType: string, read: ReadResult): (r: Response)
    ensures r.status == 200 <==> read.FileContent?
    ensures r.status == 404 <==> read == ReadError("ENOENT")
    ensures r.status == 500 <==> read.ReadError? && read.code != "ENOENT"
    ensures read.FileContent? ==>
      r.headers == map["Content-Type" := contentType] && r.body == Bytes(read.content)
    ensures read == ReadError("ENOENT") ==>
      r.headers == map["Content-Type" := "text/html"] && r.body == Text(NotFoundBody)
    ensures read.ReadError? && read.code != "ENOENT" ==>
      r.headers == map[] && r.body == Text("Server Error: " + read.code)
  {
    match read
    case ReadError(code) =>
      if code == "ENOENT" then Response(404, map["Content-Type" := "text/html"], Text(NotFoundBody))
      else Response(500, map[], Text("Server Error: " + code))
    case FileContent(content) =>
      Response(200, map["Content-Type" := contentType], Bytes(content))
  }

  /** The whole request handler, with the file system given as the result of
      reading each path. */
  function HandleRequest(url: string, files: string -> ReadResult): (r: Response)
    ensures files(FilePath(url)).FileContent? ==>
      r == Response(200, map["Content-Type" := ContentType(FilePath(url))],
                    Bytes(files(FilePath(url)).content))
    ensures files(FilePath(url)) == ReadError("ENOENT") ==>
      r == Response(404, map["Content-Type" := "text/html"], Text(NotFoundBody))
    ensures files(FilePath(url)).ReadError? && files(FilePath(url)).code != "ENOENT" ==>
      r == Response(500, map[], Text("Server Error: " + files(FilePath(url)).code))
  {
    var filePath := FilePath(url);
    Respond(ContentType(filePath), files(filePath))
  }

  /** The root URL is served from `./index.html` as HTML. */
  lemma RootIsIndexHtml(files: string -> ReadResult)
    ensures HandleRequest("/", files) == Respond("text/html", files("./index.html"))
  {
    IndexHtmlParts();
    ExtnameOfSegment(".", "index", ".html");
    HtmlInAnyCase();
  }

  /** A missing file gets the same 404 response whatever its extension. */
  lemma NotFoundIgnoresExtension(url1: string, url2: string, files: string -> ReadResult)
    requires files(FilePath(url1)) == ReadError("ENOENT")
    requires files(FilePath(url2)) == ReadError("ENOENT")
    ensures HandleRequest(url1, files) == HandleRequest(url2, files)
  {
  }

  // ---------------------------------------------------------------------
  // getLocalIP

  datatype NetInterface = NetInterface(address: string, family: string, internal: bool)

  /** `os.networkInterfaces()` in the order `Object.keys` lists it: each
      interface name with its addresses. */
  type InterfaceTable = seq<(string, seq<NetInterface>)>

  predicate IsExternalIPv4(i: NetInterface) {
    i.family == "IPv4" && !i.internal
  }

  predicate ExternalAt(t: InterfaceTable, n: nat, j: nat) {
    n < |t| && j < |t[n].1| && IsExternalIPv4(t[n].1[j])
  }

  /** Name order first, then the order within a name's list. */
  predicate Precedes(a: (nat, nat), b: (nat, nat)) {
    a.0 < b.0 || (a.0 == b.0 && a.1 < b.1)
  }

  /** Index, from `from` on, of the first external IPv4 address in a list. */
  function FirstInList(l: seq<NetInterface>, from: nat): (r: Option<nat>)
    ensures r.Some? ==> from <= r.value < |l| && IsExternalIPv4(l[r.value])
    ensures r.Some? ==> forall j :: from <= j < r.value ==> !IsExternalIPv4(l[j])
    ensures r.None? ==> forall j :: from <= j < |l| ==> !IsExternalIPv4(l[j])
    decreases |l| - from
  {
    if from >= |l| then None
    else if IsExternalIPv4(l[from]) then Some(from)
    else FirstInList(l, from + 1)
  }

  /** Position, from name `from` on, of the first external IPv4 interface. */
  function FirstExternal(t: InterfaceTable, from: nat): (r: Option<(nat, nat)>)
    ensures r.Some? ==> from <= r.value.0 && ExternalAt(t, r.value.0, r.value.1)
    ensures r.Some? ==> forall n: nat, j: nat ::
      from <= n && Precedes((n, j), r.value) ==> !ExternalAt(t, n, j)
    ensures r.None? ==> forall n: nat, j: nat :: from <= n ==> !ExternalAt(t, n, j)
    decreases |t| - from
  {
    if from >= |t| then None
    else match FirstInList(t[from].1, 0)
      case Some(j) => Some((from, j))
      case None => FirstExternal(t, from + 1)
  }

  /** The address `getLocalIP` should give: that of the first external IPv4
      interface, else `localhost`. */
  function LocalIP(t: InterfaceTable): string {
    match FirstExternal(t, 0)
    case Some(p) => t[p.0].1[p.1].address
    case None => "localhost"
  }

  /** `getLocalIP` (server.js:10-21): two nested loops that return at the
      first IPv4 interface that is not internal. */
  method GetLocalIP(interfaces: InterfaceTable) returns (ip: string)
    ensures ip == LocalIP(interfaces)
    ensures (exists n: nat, j: nat :: ExternalAt(interfaces, n, j)) ==>
      exists n: nat, j: nat :: ExternalAt(interfaces, n, j) && ip == interfaces[n].1[j].address
    ensures (forall n: nat, j: nat :: !ExternalAt(interfaces, n, j)) ==> ip == "localhost"
  {
    var n := 0;
    while n < |interfaces|
      invariant n <= |interfaces|
      invariant forall n': nat, j: nat :: n' < n ==> !ExternalAt(interfaces, n', j)
    {
      var list := interfaces[n].1;
      var j := 0;
      while j < |list|
        invariant j <= |list|
        invariant forall j': nat :: j' < j ==> !ExternalAt(interfaces, n, j')
      {
        if list[j].family == "IPv4" && !list[j].internal {
          assert ExternalAt(interfaces, n, j);
          var first := FirstExternal(interfaces, 0);
          assert first.Some? && !Precedes(first.value, (n, j)) && !Precedes((n, j), first.value);
          return list[j].address;
        }
        j := j + 1;
      }
      n := n + 1;
    }
    return "localhost";
  }
}
