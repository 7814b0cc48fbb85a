/** Relative object paths as the storage adapters normalize them. */
module PosixPaths {
  import opened AsciiText

  predicate Kept(piece: string) {
    piece != "" && piece != "."
  }

  function KeptOf(pieces: seq<string>): seq<string> {
    if pieces == [] then []
    else if Kept(pieces[0]) then [pieces[0]] + KeptOf(pieces[1..])
    else KeptOf(pieces[1..])
  }

  predicate IsAbsolute(path: string) {
    path != "" && path[0] == '/'
  }

  /** Exactly two leading slashes are kept, as POSIX allows; otherwise one. */
  function Root(path: string): string {
    if !IsAbsolute(path) then ""
    else if |path| >= 2 && path[1] == '/' && (|path| == 2 || path[2] != '/') then "//"
    else "/"
  }

  function Parts(path: string): seq<string> {
    KeptOf(SplitOn(path, '/'))
  }

  function AsPosix(path: string): string {
    var text := Root(path) + JoinWith(Parts(path), '/');
    if text == "" then "." else text
  }

  function Under(directory: string, name: string): string {
    AsPosix(if directory == "" then name else directory + "/" + name)
  }

  predicate Clean(path: string) {
    forall piece :: piece in SplitOn(path, '/') ==> Kept(piece)
  }

  /** A path of proper parts only is left as it is. */
  lemma CleanIsKept(path: string)
    requires Clean(path)
    ensures AsPosix(path) == path && !IsAbsolute(path)
  {
    SplitThenJoin(path, '/');
    AllKept(SplitOn(path, '/'));
    LeadingPiece(path);
  }

  lemma LeadingPiece(path: string)
    ensures path == "" || path[0] == '/' ==> SplitOn(path, '/')[0] == "" && "" in SplitOn(path, '/')
  {
  }

  lemma {:induction false} AllKept(pieces: seq<string>)
    requires forall piece :: piece in pieces ==> Kept(piece)
    ensures KeptOf(pieces) == pieces
  {
    if pieces == [] {
    } else {
      AllKept(pieces[1..]);
      assert pieces[0] in pieces && pieces == [pieces[0]] + pieces[1..];
    }
  }

  // --- the normal form ------------------------------------------------------------------------------

  lemma {:induction false} KeptOfJoins(a: seq<string>, b: seq<string>)
    ensures KeptOf(a + b) == KeptOf(a) + KeptOf(b)
  {
    if a == [] {
      assert a + b == b;
    } else {
      hide Kept;
      KeptOfJoins(a[1..], b);
      assert (a + b)[1..] == a[1..] + b && (a + b)[0] == a[0];
      assert [a[0]] + (KeptOf(a[1..]) + KeptOf(b)) == [a[0]] + KeptOf(a[1..]) + KeptOf(b);
    }
  }

  lemma {:induction false} KeptAre(pieces: seq<string>)
    ensures forall piece :: piece in KeptOf(pieces) <==> piece in pieces && Kept(piece)
  {
    if pieces == [] {
    } else {
      KeptAre(pieces[1..]);
      assert pieces == [pieces[0]] + pieces[1..];
    }
  }

  lemma PartsAreProper(path: string)
    ensures forall part :: part in Parts(path) ==> Kept(part) && '/' !in part
  {
    KeptAre(SplitOn(path, '/'));
    PiecesHaveNone(path, '/');
  }

  lemma {:induction false} JoinStarts(pieces: seq<string>)
    requires pieces != [] && Kept(pieces[0]) && '/' !in pieces[0]
    ensures JoinWith(pieces, '/') != "" && JoinWith(pieces, '/')[0] == pieces[0][0] != '/'
  {
    assert pieces[0][0] in pieces[0];
  }

  /** A root before joined parts adds nothing to the parts. */
  lemma PartsOfRooted(root: string, parts: seq<string>)
    requires root in {"", "/", "//"} && forall part :: part in parts ==> Kept(part) && '/' !in part
    ensures Parts(root + JoinWith(parts, '/')) == parts
  {
    var text := JoinWith(parts, '/');
    PartsOfJoined(parts);
    SlashAddsNothing(text);
    SlashAddsNothing("/" + text);
    assert "" + text == text && "//" + text == "/" + ("/" + text);
    hide Parts;
  }

  lemma SlashAddsNothing(text: string)
    ensures Parts("/" + text) == Parts(text)
  {
    assert "/" + text == "" + ['/'] + text;
    SplitAround("", '/', text);
    assert SplitOn("", '/') == [""];
    KeptOfJoins([""], SplitOn(text, '/'));
    hide SplitOn;
  }

  lemma PartsOfJoined(parts: seq<string>)
    requires forall part :: part in parts ==> Kept(part) && '/' !in part
    ensures Parts(JoinWith(parts, '/')) == parts
  {
    if parts == [] {
      assert SplitOn("", '/') == [""];
    } else {
      JoinThenSplit(parts, '/');
      AllKept(parts);
    }
  }

  lemma RootOfRooted(root: string, parts: seq<string>)
    requires root in {"", "/", "//"} && forall part :: part in parts ==> Kept(part) && '/' !in part
    ensures Root(root + JoinWith(parts, '/')) == root
  {
    if parts != [] {
      assert parts[0] in parts;
      JoinStarts(parts);
    }
  }

  /** Normalizing keeps the root and the parts, and doing it again changes nothing. */
  lemma AsPosixIsNormal(path: string)
    ensures var normal := AsPosix(path);
      && AsPosix(normal) == normal && Root(normal) == Root(path) && Parts(normal) == Parts(path)
      && IsAbsolute(normal) == IsAbsolute(path)
  {
    PartsAreProper(path);
    PartsOfRooted(Root(path), Parts(path));
    RootOfRooted(Root(path), Parts(path));
    assert SplitOn(".", '/') == ["."] by { SplitWhole(".", '/'); }
    if Root(path) + JoinWith(Parts(path), '/') == "" && Parts(path) != [] {
      assert Parts(path)[0] in Parts(path);
      JoinStarts(Parts(path));
    }
    hide SplitOn, JoinWith, KeptOf;
  }

  /** A plain file name under a directory: the directory's root and parts, and then the name. */
  lemma UnderIsNormal(directory: string, name: string)
    requires Kept(name) && '/' !in name
    ensures var path := Under(directory, name);
      && AsPosix(path) == path && Parts(path) == Parts(directory) + [name]
      && IsAbsolute(path) == IsAbsolute(directory)
  {
    SplitWhole(name, '/');
    AsPosixIsNormal(if directory == "" then name else directory + "/" + name);
    if directory == "" {
      assert name[0] in name;
      assert SplitOn("", '/') == [""];
    } else {
      SplitAround(directory, '/', name);
      KeptOfJoins(SplitOn(directory, '/'), [name]);
      assert directory + ['/'] + name == directory + "/" + name;
    }
    hide SplitOn, AsPosix;
  }
}
