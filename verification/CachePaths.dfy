/** The name under which a cached object is saved: the hash of the query goes
    between the file's base name and its extension. */
module CachePaths {
  import opened Options
  import opened QueryCodec
  import opened CacheIdentity

  /** filepath.Ext: from the last dot of the last path element. */
  function Ext(file: string): (e: string)
    ensures |e| <= |file| && e == file[|file| - |e|..]
  {
    if file == "" || file[|file| - 1] == '/' then ""
    else if file[|file| - 1] == '.' then "."
    else
      var e := Ext(file[..|file| - 1]);
      if e == "" then "" else e + [file[|file| - 1]]
  }

  function Base(file: string): string {
    file[..|file| - |Ext(file)|]
  }

  /** GetPathCacheSavePath, with the hash as a parameter. */
  function SavePath(md5: string -> string, path: string): string {
    var query := RawOf(QueryPart(path));
    if query == "" then path
    else
      var file := FilePart(path);
      Base(file) + "-" + md5(query) + Ext(file)
  }

  /** 32 hexadecimal digits. */
  predicate Digest(h: string) {
    |h| == 32 && forall i | 0 <= i < |h| :: '0' <= h[i] <= '9' || 'a' <= h[i] <= 'f'
  }

  predicate Plain(s: string) {
    forall i | 0 <= i < |s| :: s[i] != '.' && s[i] != '/'
  }

  lemma {:induction false} ExtIsDotted(file: string)
    ensures Ext(file) == "" || (Ext(file)[0] == '.' && Plain(Ext(file)[1..]))
  {
    if file != "" {
      ExtIsDotted(file[..|file| - 1]);
    }
  }

  lemma {:induction false} ExtOfDotted(x: string, t: string)
    requires Plain(t)
    ensures Ext(x + "." + t) == "." + t
  {
    if t == "" {
      assert x + "." + t == x + ".";
    } else {
      var n := |t| - 1;
      ExtOfDotted(x, t[..n]);
      assert (x + "." + t)[..|x + "." + t| - 1] == x + "." + t[..n];
      assert "." + t == "." + t[..n] + [t[n]];
    }
  }

  lemma {:induction false} ExtStaysEmpty(x: string, t: string)
    requires Ext(x) == "" && Plain(t)
    ensures Ext(x + t) == ""
  {
    if t == "" {
      assert x + t == x;
    } else {
      var n := |x + t| - 1;
      assert (x + t)[..n] == x + t[..|t| - 1] && (x + t)[n] == t[|t| - 1];
      ExtStaysEmpty(x, t[..|t| - 1]);
    }
  }

  /** The extension survives the insertion of the hash. */
  lemma ExtSurvives(file: string, h: string)
    requires Digest(h)
    ensures Ext(Base(file) + "-" + h + Ext(file)) == Ext(file)
  {
    ExtIsDotted(file);
    if Ext(file) == "" {
      ExtStaysEmpty(file, "-" + h);
      assert Base(file) + "-" + h + Ext(file) == file + ("-" + h);
    } else {
      ExtOfDotted(Base(file) + "-" + h, Ext(file)[1..]);
      assert Ext(file) == "." + Ext(file)[1..];
      assert Base(file) + "-" + h + Ext(file) == Base(file) + "-" + h + "." + Ext(file)[1..];
    }
  }

  /** Reads the file and the hash back from a saved name. */
  function Recover(saved: string): (string, string)
    requires |Base(saved)| >= 33
  {
    var stem := Base(saved);
    (stem[..|stem| - 33] + Ext(saved), stem[|stem| - 32..])
  }

  /** A saved name with a hash in it determines the file and the hash. */
  lemma SavedNameIsInvertible(md5: string -> string, path: string)
    requires RawOf(QueryPart(path)) != "" && Digest(md5(RawOf(QueryPart(path))))
    ensures |Base(SavePath(md5, path))| >= 33
    ensures Recover(SavePath(md5, path)) == (FilePart(path), md5(RawOf(QueryPart(path))))
  {
    var file, h := FilePart(path), md5(RawOf(QueryPart(path)));
    ExtSurvives(file, h);
    var saved := SavePath(md5, path);
    var stem := Base(file) + "-" + h;
    assert Base(saved) == stem;
    assert stem[..|stem| - 33] == Base(file) && stem[|stem| - 32..] == h;
    assert file == Base(file) + Ext(file);
  }

  /** Among requests that keep a query, saved names are equal exactly when the
      files and the hashes are. */
  lemma {:induction false} SavedNamesEqual(md5: string -> string, p: string, q: string)
    requires RawOf(QueryPart(p)) != "" && Digest(md5(RawOf(QueryPart(p))))
    requires RawOf(QueryPart(q)) != "" && Digest(md5(RawOf(QueryPart(q))))
    ensures SavePath(md5, p) == SavePath(md5, q) <==>
            FilePart(p) == FilePart(q) && md5(RawOf(QueryPart(p))) == md5(RawOf(QueryPart(q)))
  {
    SavedNameIsInvertible(md5, p);
    SavedNameIsInvertible(md5, q);
  }

  /** A request without a query is saved under its own name. So every saved name
      is shared with one such request: the one that spells the hash out. */
  lemma LiteralNameCollides(md5: string -> string, path: string)
    requires RawOf(QueryPart(path)) != "" && Digest(md5(RawOf(QueryPart(path))))
    ensures var literal := SavePath(md5, path);
            QueryPart(literal) == None && literal != path && SavePath(md5, literal) == SavePath(md5, path)
  {
    var file, literal := FilePart(path), SavePath(md5, path);
    var h := md5(RawOf(QueryPart(path)));
    assert '?' !in file && '?' !in h && '?' !in Base(file) && '?' !in Ext(file);
    assert literal == Base(file) + "-" + h + Ext(file);
    assert '?' !in literal;
  }

  lemma {:induction false} ExtGrows(x: string, t: string)
    requires Ext(x) != "" && Plain(t)
    ensures Ext(x + t) == Ext(x) + t
  {
    if t == "" {
      assert x + t == x && Ext(x) + t == Ext(x);
    } else {
      var n := |t| - 1;
      ExtGrows(x, t[..n]);
      assert (x + t)[..|x + t| - 1] == x + t[..n] && (x + t)[|x + t| - 1] == t[n];
      assert Ext(x) + t == Ext(x) + t[..n] + [t[n]];
    }
  }

  /** The name has a dash before the 32 characters that precede its extension,
      and reads as the file and the hash. */
  predicate Spells(name: string, file: string, h: string) {
    && |Base(name)| >= 33 && Base(name)[|Base(name)| - 33] == '-'
    && Recover(name) == (file, h)
  }

  lemma DashedIsPlain(h: string)
    requires Digest(h)
    ensures Plain("-" + h)
  {
  }

  lemma UndottedPrefix(x: string, h: string)
    requires Digest(h) && Ext(x + ("-" + h)) == ""
    ensures Ext(x) == ""
  {
    DashedIsPlain(h);
    if Ext(x) != "" {
      ExtGrows(x, "-" + h);
    }
  }

  lemma ExtIsStable(x: string, e: string)
    requires e != "" && e[0] == '.' && Plain(e[1..])
    ensures Ext(x + e) == e
  {
    ExtOfDotted(x, e[1..]);
    assert e == "." + e[1..] && x + e == x + "." + e[1..];
  }

  /** Cutting the dash and the hash out of a name leaves its extension. */
  lemma CutKeepsExt(x: string, h: string, e: string)
    requires Digest(h) && Ext(x + ("-" + h) + e) == e
    ensures Ext(x + e) == e
  {
    ExtIsDotted(x + ("-" + h) + e);
    if e == "" {
      assert x + ("-" + h) + e == x + ("-" + h) && x + e == x;
      UndottedPrefix(x, h);
    } else {
      ExtIsStable(x, e);
    }
  }

  /** A name that spells a file and a hash is the saved name of them. */
  lemma SpelledIsSaved(name: string, file: string, h: string)
    requires Spells(name, file, h) && Digest(h)
    ensures name == Base(file) + "-" + h + Ext(file)
  {
    var stem, e := Base(name), Ext(name);
    var x := stem[..|stem| - 33];
    assert stem == x + ("-" + h) && file == x + e;
    assert name == x + ("-" + h) + e;
    CutKeepsExt(x, h, e);
    assert Base(file) == x;
    assert x + ("-" + h) + e == x + "-" + h + e;
  }

  /** Exactly when a request without a query shares the saved name of one with a
      query: when its path spells out that request's file and hash. */
  lemma {:induction false} CollidesExactlyWhenSpelled(md5: string -> string, p: string, q: string)
    requires RawOf(QueryPart(p)) == ""
    requires RawOf(QueryPart(q)) != "" && Digest(md5(RawOf(QueryPart(q))))
    ensures SavePath(md5, p) == SavePath(md5, q) <==> Spells(p, FilePart(q), md5(RawOf(QueryPart(q))))
  {
    var file, h := FilePart(q), md5(RawOf(QueryPart(q)));
    SavedNameIsInvertible(md5, q);
    if Spells(p, file, h) {
      SpelledIsSaved(p, file, h);
    }
    if SavePath(md5, p) == SavePath(md5, q) {
      ExtSurvives(file, h);
      assert Base(p) == Base(file) + "-" + h;
    }
  }

  /** When any two requests share a saved name. */
  lemma {:induction false} SharedNamesExactly(md5: string -> string, p: string, q: string)
    requires RawOf(QueryPart(p)) != "" ==> Digest(md5(RawOf(QueryPart(p))))
    requires RawOf(QueryPart(q)) != "" ==> Digest(md5(RawOf(QueryPart(q))))
    ensures var r, r' := RawOf(QueryPart(p)), RawOf(QueryPart(q));
            SavePath(md5, p) == SavePath(md5, q) <==>
            if r != "" && r' != "" then FilePart(p) == FilePart(q) && md5(r) == md5(r')
            else if r != "" then Spells(q, FilePart(p), md5(r))
            else if r' != "" then Spells(p, FilePart(q), md5(r'))
            else p == q
  {
    var r, r' := RawOf(QueryPart(p)), RawOf(QueryPart(q));
    if r != "" && r' != "" {
      SavedNamesEqual(md5, p, q);
    } else if r != "" {
      CollidesExactlyWhenSpelled(md5, q, p);
    } else if r' != "" {
      CollidesExactlyWhenSpelled(md5, p, q);
    }
  }

  // ---------- The cache key ----------

  lemma SaveAssembled(md5: string -> string, file: string, forceQuery: bool, raw: string)
    requires '?' !in file
    ensures SavePath(md5, Assemble(file, forceQuery, raw)) ==
            if raw != "" then Base(file) + "-" + md5(raw) + Ext(file) else if forceQuery then file + "?" else file
  {
    AssembledParts(file, forceQuery, raw);
    assert file + "?" + "" == file + "?";
  }

  /** For one file, saved names are equal exactly when the rebuilt queries are,
      and, when these are empty, both or neither ended in a bare '?'. */
  lemma SavedForOneFile(md5: string -> string, file: string, force: bool, raw: string, force': bool, raw': string)
    requires '?' !in file
    requires raw != "" ==> |md5(raw)| == 32
    requires raw' != "" ==> |md5(raw')| == 32
    requires md5(raw) == md5(raw') ==> raw == raw'
    ensures SavePath(md5, Assemble(file, force, raw)) == SavePath(md5, Assemble(file, force', raw')) <==>
            raw == raw' && (raw == "" ==> force == force')
  {
    SaveAssembled(md5, file, force, raw);
    SaveAssembled(md5, file, force', raw');
    var s, s' := SavePath(md5, Assemble(file, force, raw)), SavePath(md5, Assemble(file, force', raw'));
    assert |file| == |Base(file)| + |Ext(file)|;
    if raw != "" && raw' != "" && s == s' {
      var b := |Base(file)|;
      assert s[b + 1..b + 33] == md5(raw) && s'[b + 1..b + 33] == md5(raw');
    }
    assert |file + "?"| == |file| + 1;
  }

  /** Two requests for one path mean the same cached object: their queries agree
      through the rule, and if nothing of them is kept, both or neither came
      with a bare '?'. */
  ghost predicate SameObject(rule: KeyRule, p: string, q: string)
    requires IsBytes(p) && IsBytes(q)
  {
    PartsAreBytes(p);
    PartsAreBytes(q);
    var raw, raw' := RawOf(QueryPart(p)), RawOf(QueryPart(q));
    ParseIsProper(raw);
    ParseIsProper(raw');
    && (if rule.Untouched? then raw == raw' else Agree(rule, ParseQuery(raw), ParseQuery(raw')))
    && ((if rule.Untouched? then raw == "" else Project(rule, ParseQuery(raw)) == map[]) ==>
          (QueryPart(p) == Some("") <==> QueryPart(q) == Some("")))
  }

  lemma RawAfterMeans(rule: KeyRule, raw: string, raw': string)
    requires IsBytes(raw) && IsBytes(raw') && !rule.Untouched?
    requires Proper(ParseQuery(raw)) && Proper(ParseQuery(raw'))
    ensures RawAfter(rule, raw) == RawAfter(rule, raw') <==> Agree(rule, ParseQuery(raw), ParseQuery(raw'))
    ensures RawAfter(rule, raw) == "" <==> Project(rule, ParseQuery(raw)) == map[]
  {
    var m, m' := ParseQuery(raw), ParseQuery(raw');
    ProjectIsProper(rule, m);
    ProjectIsProper(rule, m');
    ProjectionsAgree(rule, m, m');
    EncodeIsInjective(Project(rule, m), Project(rule, m'));
    EncodeIsInjective(Project(rule, m), map[]);
    EncodeEmpty();
  }

  /** The cache key is exact: requests for one path share a saved name if and only
      if they mean the same object, unless the hash itself collides on their
      two queries. */
  lemma {:induction false} CacheKeyIsExact(md5: string -> string, rule: KeyRule, p: string, q: string)
    requires IsBytes(p) && IsBytes(q) && FilePart(p) == FilePart(q)
    requires forall s :: |md5(s)| == 32
    requires IsBytes(RawOf(QueryPart(p))) && IsBytes(RawOf(QueryPart(q)))
    requires var raw, raw' := RawAfter(rule, RawOf(QueryPart(p))), RawAfter(rule, RawOf(QueryPart(q)));
             md5(raw) == md5(raw') ==> raw == raw'
    ensures SavePath(md5, Rebuild(rule, p)) == SavePath(md5, Rebuild(rule, q)) <==> SameObject(rule, p, q)
  {
    PartsAreBytes(p);
    PartsAreBytes(q);
    var raw, raw' := RawOf(QueryPart(p)), RawOf(QueryPart(q));
    ParseIsProper(raw);
    ParseIsProper(raw');
    SavedForOneFile(md5, FilePart(p), QueryPart(p) == Some(""), RawAfter(rule, raw),
                    QueryPart(q) == Some(""), RawAfter(rule, raw'));
    if !rule.Untouched? {
      RawAfterMeans(rule, raw, raw');
    }
  }
}
