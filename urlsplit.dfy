/**
  The body of the loop of `url_to_df` (app.py): one URL becomes a record, a Python dict
  from column to value. `urlsplit`, `unquote` and `parse_qs` are library calls; their
  results are the input `ParsedUrl`.
*/
module UrlSplit {
  import opened Wrappers
  import opened Text
  import opened Seqs
  import opened Dicts

  /** One entry of `parse_qs(query)`: a parameter name and its values, in order. */
  datatype QueryParam = QueryParam(name: string, values: seq<string>)

  /**
    One URL as `urlsplit(decode(url))` and `parse_qs` see it. `url` is the (decoded) text,
    `hostname` and `port` are the `SplitResult` properties (`port` already an integer).
  */
  datatype ParsedUrl = ParsedUrl(
    url: string,
    scheme: string, netloc: string, path: string, query: string, fragment: string,
    hostname: Option<string>, port: Option<int>,
    params: seq<QueryParam>)

  /** `parse_qs` returns a dict, so no name occurs twice. */
  predicate DistinctNames(ps: seq<QueryParam>)
  {
    forall i, j :: 0 <= i < j < |ps| ==> ps[i].name != ps[j].name
  }

  /** A cell value: text, or the integer port. */
  datatype Value = Str(s: string) | Int(n: int)

  /** A column of the table; `Name()` is the column's name in the DataFrame. */
  datatype Field =
    | Url | Scheme | Netloc | Path | QueryString | Fragment | Hostname | Port
    | Dir(index: nat) | LastDir | Query(param: string)
  {
    function Name(): string
    {
      match this
      case Url => "url"
      case Scheme => "scheme"
      case Netloc => "netloc"
      case Path => "path"
      case QueryString => "query"
      case Fragment => "fragment"
      case Hostname => "hostname"
      case Port => "port"
      case Dir(i) => "dir_" + Decimal(i)
      case LastDir => "last_dir"
      case Query(p) => "query_" + p
    }

    /** A column that `_asdict()` or the hostname/port assignments produce. */
    predicate IsBase()
    {
      Scheme? || Netloc? || Path? || QueryString? || Fragment? || Hostname? || Port?
    }
  }

  predicate StartsWith(s: string, t: string)
  {
    |t| <= |s| && s[..|t|] == t
  }

  /** Directory columns are the names starting `dir_`, query columns those starting `query_`. */
  lemma NamePrefixes(f: Field)
    ensures f.Dir? <==> StartsWith(f.Name(), "dir_")
    ensures f.Query? <==> StartsWith(f.Name(), "query_")
  {
    var n := f.Name();
    if f.Dir? {
      assert n[..4] == "dir_" && n[0] == 'd';
    } else if f.Query? {
      assert n[..6] == "query_" && n[0] == 'q';
    } else {
      assert n[0] != 'd' && (f.QueryString? || n[0] != 'q');
    }
  }

  /** Different columns have different names, so the structured columns lose nothing. */
  lemma NameInjective(f: Field, g: Field)
    requires f.Name() == g.Name()
    ensures f == g
  {
    NamePrefixes(f);
    NamePrefixes(g);
    if f.Dir? && g.Dir? {
      assert f.Name()[4..] == Decimal(f.index) && g.Name()[4..] == Decimal(g.index);
      DecimalInjective(f.index, g.index);
    } else if f.Query? && g.Query? {
      assert f.Name()[6..] == f.param && g.Name()[6..] == g.param;
    }
  }

  /**
    The column filters of `url_to_df`: `filter(regex='query_')` searches the name anywhere,
    `filter(regex='^dir_')` matches its start. They select exactly the query and
    directory columns.
  */
  lemma FilterPatterns(f: Field)
    ensures Contains(f.Name(), "query_") <==> f.Query?
    ensures StartsWith(f.Name(), "dir_") <==> f.Dir?
  {
    var n := f.Name();
    if f.Dir? {
      assert n[..4] == "dir_";
      DecimalDigits(f.index);
      assert forall i :: 4 <= i < |n| ==> n[i] == Decimal(f.index)[i - 4];
    } else {
      assert n[0] != 'd';
    }
    if f.Query? {
      assert n[..6] == "query_";
    } else if f.QueryString? {
      NotContainsLonger(n, "query_");
    } else {
      assert 'q' !in n;
      NotContainsFirstChar(n, "query_");
    }
  }

  /** `hostname if hostname != netloc else None` followed by `if hostname:`. */
  function KeptHostname(u: ParsedUrl): Option<string>
  {
    if u.hostname.Some? && u.hostname.value != u.netloc && u.hostname.value != "" then u.hostname
    else None
  }

  /** `if port:`: a missing port and port 0 are both left out. */
  function KeptPort(u: ParsedUrl): Option<int>
  {
    if u.port.Some? && u.port.value != 0 then u.port else None
  }

  /** `if dirs[0]:` — the pieces are used only when the first one is not empty. */
  function KeptDirs(dirs: seq<string>): seq<string>
  {
    if dirs == [] || dirs[0] == "" then [] else dirs
  }

  /** `path.strip('/').split('/')`, kept only when its first piece is not empty. */
  function Segments(path: string): seq<string>
  {
    KeptDirs(Split(Strip(path, '/'), '/'))
  }

  /**
    The segments are the stripped path cut at each `/`: joining them gives it back, there
    are none exactly when the stripped path is empty, no segment holds a `/`, and the
    first and last ones are not empty (interior ones may be, as in `a//b`).
  */
  lemma {:induction false} SegmentsRoundTrip(path: string)
    ensures Join(Segments(path), "/") == Strip(path, '/')
    ensures Segments(path) == [] <==> Strip(path, '/') == ""
    ensures forall i :: 0 <= i < |Segments(path)| ==> '/' !in Segments(path)[i]
    ensures Segments(path) != [] ==> Segments(path)[0] != "" && Segments(path)[|Segments(path)| - 1] != ""
    ensures Strip(path, '/') != "" ==> Split(Join(Segments(path), "/"), '/') == Segments(path)
  {
    var s := Strip(path, '/');
    StripSpec(path, '/');
    SplitPieces(s, '/');
    SplitFirstEmpty(s, '/');
    SplitLastEmpty(s, '/');
    JoinSplit(s, '/');
  }

  /** The parameter named `n` as a field value: its values joined with `@@` (the last one wins, as in a dict). */
  function QueryCell(ps: seq<QueryParam>, n: string): Option<Value>
  {
    if ps == [] then None
    else if ps[|ps| - 1].name == n then Some(Str(Join(ps[|ps| - 1].values, "@@")))
    else QueryCell(ps[..|ps| - 1], n)
  }

  /** The keys `_asdict()` and the hostname/port assignments give, with their values. */
  function BaseValue(u: ParsedUrl, f: Field): Option<Value>
  {
    match f
    case Scheme => Some(Str(u.scheme))
    case Netloc => Some(Str(u.netloc))
    case Path => Some(Str(u.path))
    case QueryString => Some(Str(u.query))
    case Fragment => Some(Str(u.fragment))
    case Hostname => if KeptHostname(u).Some? then Some(Str(KeptHostname(u).value)) else None
    case Port => if KeptPort(u).Some? then Some(Int(KeptPort(u).value)) else None
    case _ => None
  }

  /** The record after the `query_` update, before the `dir_` one. */
  function BeforeDirs(u: ParsedUrl, f: Field): Option<Value>
  {
    match f
    case Query(n) => QueryCell(u.params, n)
    case _ => BaseValue(u, f)
  }

  /** `dir_i` holds the i-th segment, counting from 1. */
  function DirValue(segs: seq<string>, i: nat): Option<Value>
  {
    if 1 <= i <= |segs| then Some(Str(segs[i - 1])) else None
  }

  /** What the record of `u` holds for field `f`, or None when the record has no such key. */
  function FieldValue(u: ParsedUrl, f: Field): Option<Value>
  {
    match f
    case Dir(i) => DirValue(Segments(u.path), i)
    case _ => BeforeDirs(u, f)
  }

  /** `dir_1 .. dir_k`. */
  function DirSpan(k: nat): (r: seq<Field>)
    ensures |r| == k && forall i :: 0 <= i < k ==> r[i] == Dir(i + 1)
  {
    seq(k, i requires 0 <= i < k => Dir(i + 1))
  }

  function QueryFields(ps: seq<QueryParam>): (r: seq<Field>)
    ensures |r| == |ps| && forall i :: 0 <= i < |ps| ==> r[i] == Query(ps[i].name)
  {
    seq(|ps|, i requires 0 <= i < |ps| => Query(ps[i].name))
  }

  /** The keys `_asdict()` and the hostname/port assignments put in, in that order. */
  function BaseFields(u: ParsedUrl): seq<Field>
  {
    [Scheme, Netloc, Path, QueryString, Fragment]
    + (if KeptHostname(u).Some? then [Hostname] else [])
    + (if KeptPort(u).Some? then [Port] else [])
  }

  /** The keys of the record of `u` in insertion order. */
  function Fields(u: ParsedUrl): seq<Field>
  {
    BaseFields(u) + QueryFields(u.params) + DirSpan(|Segments(u.path)|)
  }

  /** A query parameter's cell is its own values joined with `@@`, and only named parameters have one. */
  lemma {:induction false} QueryCellOfParam(ps: seq<QueryParam>, n: string)
    requires DistinctNames(ps)
    ensures QueryCell(ps, n).Some? <==> exists i :: 0 <= i < |ps| && ps[i].name == n
    ensures forall i :: 0 <= i < |ps| && ps[i].name == n ==> QueryCell(ps, n) == Some(Str(Join(ps[i].values, "@@")))
    decreases |ps|
  {
    if ps != [] {
      var init := ps[..|ps| - 1];
      assert DistinctNames(init) by {
        forall i, j | 0 <= i < j < |init| ensures init[i].name != init[j].name {
          assert init[i] == ps[i] && init[j] == ps[j];
        }
      }
      QueryCellOfParam(init, n);
      forall i | 0 <= i < |init| ensures init[i] == ps[i] { }
    }
  }

  lemma DirSpanMembers(k: nat, f: Field)
    ensures f in DirSpan(k) <==> f.Dir? && 1 <= f.index <= k
  {
    if f.Dir? && 1 <= f.index <= k {
      assert DirSpan(k)[f.index - 1] == f;
    }
  }

  lemma QueryFieldsMembers(ps: seq<QueryParam>, f: Field)
    ensures f in QueryFields(ps) <==> f.Query? && exists i :: 0 <= i < |ps| && ps[i].name == f.param
  {
    if f.Query? && exists i :: 0 <= i < |ps| && ps[i].name == f.param {
      var i :| 0 <= i < |ps| && ps[i].name == f.param;
      assert QueryFields(ps)[i] == f;
    }
  }

  /** The record's keys are exactly the fields it has a value for. */
  lemma RecordKeys(u: ParsedUrl)
    requires DistinctNames(u.params)
    ensures forall f :: f in Fields(u) <==> FieldValue(u, f).Some?
  {
    forall f ensures f in Fields(u) <==> FieldValue(u, f).Some? {
      RecordKey(u, f);
    }
  }

  lemma RecordKey(u: ParsedUrl, f: Field)
    requires DistinctNames(u.params)
    ensures f in Fields(u) <==> FieldValue(u, f).Some?
  {
    var k := |Segments(u.path)|;
    assert f in Fields(u) <==> f in BaseFields(u) || f in QueryFields(u.params) || f in DirSpan(k);
    BaseFieldsMembers(u, f);
    DirSpanMembers(k, f);
    QueryFieldsMembers(u.params, f);
    if f.Query? {
      QueryCellOfParam(u.params, f.param);
    }
  }

  /** The base keys are the fields with a base value. */
  lemma BaseFieldsMembers(u: ParsedUrl, f: Field)
    ensures f in BaseFields(u) <==> BaseValue(u, f).Some?
  {
  }

  /** No key is inserted twice. */
  lemma RecordKeysDistinct(u: ParsedUrl)
    requires DistinctNames(u.params)
    ensures Distinct(Fields(u))
  {
    var fs, nb, nq := Fields(u), |BaseFields(u)|, |u.params|;
    forall a, b | 0 <= a < b < |fs| ensures fs[a] != fs[b] {
      if b < nb {
      } else if a < nb {
      } else if b < nb + nq {
        assert fs[a] == Query(u.params[a - nb].name) && fs[b] == Query(u.params[b - nb].name);
      } else if a < nb + nq {
      } else {
        assert fs[a] == Dir(a - nb - nq + 1) && fs[b] == Dir(b - nb - nq + 1);
      }
    }
  }

  /**
    What the record holds: every query parameter `n` yields the key `query_n` holding its
    values joined with `@@`, `hostname` is a key only when it differs from `netloc` (and
    is not empty), `port` only when it is set and not 0, and `dir_i` exactly for
    `1 <= i <= k` where the `k` segments, joined with `/`, give back the stripped path.
  */
  lemma RecordValues(u: ParsedUrl)
    requires DistinctNames(u.params)
    ensures forall i :: 0 <= i < |u.params| ==>
      FieldValue(u, Query(u.params[i].name)) == Some(Str(Join(u.params[i].values, "@@")))
    ensures FieldValue(u, Hostname).Some? <==>
      u.hostname.Some? && u.hostname.value != u.netloc && u.hostname.value != ""
    ensures FieldValue(u, Port).Some? <==> u.port.Some? && u.port.value != 0
    ensures forall i: nat :: FieldValue(u, Dir(i)).Some? <==> 1 <= i <= |Segments(u.path)|
    ensures Join(Segments(u.path), "/") == Strip(u.path, '/')
  {
    forall i | 0 <= i < |u.params|
      ensures FieldValue(u, Query(u.params[i].name)) == Some(Str(Join(u.params[i].values, "@@")))
    {
      QueryCellOfParam(u.params, u.params[i].name);
    }
    SegmentsRoundTrip(u.path);
  }

  /** A record: the dict `url_to_df` builds for one URL. */
  type Record = Dict<Field, Value>

  /** The dict comprehension of the `query_` fields. */
  function QueryEntries(ps: seq<QueryParam>): (r: seq<(Field, Value)>)
    ensures |r| == |ps|
    ensures forall i :: 0 <= i < |ps| ==> r[i] == (Query(ps[i].name), Str(Join(ps[i].values, "@@")))
  {
    seq(|ps|, i requires 0 <= i < |ps| => (Query(ps[i].name), Str(Join(ps[i].values, "@@"))))
  }

  /** The dict comprehension of the `dir_` fields, numbered from 1. */
  function DirEntries(dirs: seq<string>): (r: seq<(Field, Value)>)
    ensures |r| == |dirs|
    ensures forall i :: 0 <= i < |dirs| ==> r[i] == (Dir(i + 1), Str(dirs[i]))
  {
    seq(|dirs|, i requires 0 <= i < |dirs| => (Dir(i + 1), Str(dirs[i])))
  }

  lemma {:induction false} LookupQueryEntries(ps: seq<QueryParam>, f: Field)
    ensures Lookup(QueryEntries(ps), f) == if f.Query? then QueryCell(ps, f.param) else None
    decreases |ps|
  {
    if ps != [] {
      var init := ps[..|ps| - 1];
      assert QueryEntries(ps)[..|ps| - 1] == QueryEntries(init);
      LookupQueryEntries(init, f);
    }
  }

  lemma QueryKeysAppended(u: ParsedUrl)
    requires DistinctNames(u.params)
    ensures AddNew(BaseFields(u), EntryKeys(QueryEntries(u.params))) == BaseFields(u) + QueryFields(u.params)
  {
    assert EntryKeys(QueryEntries(u.params)) == QueryFields(u.params);
    AddNewFresh(BaseFields(u), QueryFields(u.params));
  }

  lemma DirKeysAppended(u: ParsedUrl)
    ensures AddNew(BaseFields(u) + QueryFields(u.params), EntryKeys(DirEntries(Segments(u.path)))) == Fields(u)
  {
    var k := |Segments(u.path)|;
    assert EntryKeys(DirEntries(Segments(u.path))) == DirSpan(k);
    forall f | f in DirSpan(k) ensures f !in BaseFields(u) + QueryFields(u.params) {
      DirSpanMembers(k, f);
    }
    AddNewFresh(BaseFields(u) + QueryFields(u.params), DirSpan(k));
  }

  lemma NoDirValues(u: ParsedUrl)
    requires Segments(u.path) == []
    ensures forall f: Field :: f.Dir? ==> FieldValue(u, f).None?
  {
  }

  lemma LookupDirEntries(segs: seq<string>, f: Field)
    ensures Lookup(DirEntries(segs), f) == if f.Dir? then DirValue(segs, f.index) else None
  {
    var es := DirEntries(segs);
    if f.Dir? && 1 <= f.index <= |es| {
      LookupAt(es, f.index - 1);
    } else {
      LookupAbsent(es, f);
    }
  }

  /**
    One iteration of the loop of `url_to_df`: start from `_asdict()`, add hostname and
    port when kept, `update` with the `query_` fields, then with the `dir_` fields when
    the first piece of the split path is not empty.
  */
  method SplitUrl(u: ParsedUrl) returns (rec: Record)
    requires DistinctNames(u.params)
    ensures rec.Valid()
    ensures rec.order == Fields(u)
    ensures forall f :: rec.Get(f) == FieldValue(u, f)
  {
    rec := BaseRecord(u);
    var ps := u.params;
    QueryKeysAppended(u);
    rec := Update(rec, QueryEntries(ps));
    forall f ensures rec.Get(f) == BeforeDirs(u, f) {
      LookupQueryEntries(ps, f);
    }
    var dirs := Split(Strip(u.path, '/'), '/');
    if dirs[0] != "" {
      rec := AddDirs(u, rec, dirs);
    } else {
      NoDirValues(u);
    }
  }

  /** `url_split._asdict()`: the five components, in field order. */
  function AsDict(u: ParsedUrl): (r: Record)
    ensures r.Valid()
    ensures r.order == [Scheme, Netloc, Path, QueryString, Fragment]
  {
    Dict([Scheme, Netloc, Path, QueryString, Fragment],
         map[Scheme := Str(u.scheme), Netloc := Str(u.netloc), Path := Str(u.path),
             QueryString := Str(u.query), Fragment := Str(u.fragment)])
  }

  /** `_asdict()` holds the base values except the hostname and port, which are added afterwards. */
  lemma AsDictValues(u: ParsedUrl, f: Field)
    ensures AsDict(u).Get(f) == if f.Hostname? || f.Port? then None else BaseValue(u, f)
  {
    match f
    case Scheme =>
    case Netloc =>
    case Path =>
    case QueryString =>
    case Fragment =>
    case _ => assert f !in AsDict(u).values;
  }

  /** `split = url_split._asdict()`, then the kept hostname and port. */
  method BaseRecord(u: ParsedUrl) returns (rec: Record)
    ensures rec.Valid()
    ensures rec.order == BaseFields(u)
    ensures forall f :: rec.Get(f) == BaseValue(u, f)
  {
    rec := AsDict(u);
    var hostname := KeptHostname(u);
    if hostname.Some? {
      rec := rec.Put(Hostname, Str(hostname.value));
    }
    HostnameAdded(u, rec);
    ghost var before := rec;
    var port := KeptPort(u);
    if port.Some? {
      rec := rec.Put(Port, Int(port.value));
    }
    PortAdded(u, before, rec);
  }

  /** The base components other than the port, in the order `_asdict()` and the hostname assignment give them. */
  function WithHostname(u: ParsedUrl): Record
  {
    var d := AsDict(u);
    if KeptHostname(u).Some? then d.Put(Hostname, Str(KeptHostname(u).value)) else d
  }

  /** After the hostname assignment the record holds every base value but the port. */
  lemma HostnameAdded(u: ParsedUrl, rec: Record)
    requires rec == WithHostname(u)
    ensures rec.Valid()
    ensures rec.order == [Scheme, Netloc, Path, QueryString, Fragment] + (if KeptHostname(u).Some? then [Hostname] else [])
    ensures forall f :: rec.Get(f) == if f.Port? then None else BaseValue(u, f)
  {
    forall f ensures rec.Get(f) == if f.Port? then None else BaseValue(u, f) {
      AsDictValues(u, f);
    }
  }

  /** After the port assignment the record holds every base value, in `BaseFields` order. */
  lemma PortAdded(u: ParsedUrl, before: Record, rec: Record)
    requires before.Valid()
    requires before.order == [Scheme, Netloc, Path, QueryString, Fragment] + (if KeptHostname(u).Some? then [Hostname] else [])
    requires forall f :: before.Get(f) == if f.Port? then None else BaseValue(u, f)
    requires rec == if KeptPort(u).Some? then before.Put(Port, Int(KeptPort(u).value)) else before
    ensures rec.Valid()
    ensures rec.order == BaseFields(u)
    ensures forall f :: rec.Get(f) == BaseValue(u, f)
  {
    assert Port !in before.order;
  }

  /** `split.update(dirs_dict)`, reached only when the first piece of the split path is not empty. */
  method AddDirs(u: ParsedUrl, before: Record, dirs: seq<string>) returns (rec: Record)
    requires dirs == Split(Strip(u.path, '/'), '/') && dirs[0] != ""
    requires before.Valid() && before.order == BaseFields(u) + QueryFields(u.params)
    requires forall f :: before.Get(f) == BeforeDirs(u, f)
    ensures rec.Valid()
    ensures rec.order == Fields(u)
    ensures forall f :: rec.Get(f) == FieldValue(u, f)
  {
    assert dirs == Segments(u.path);
    DirKeysAppended(u);
    rec := Update(before, DirEntries(dirs));
    forall f ensures rec.Get(f) == FieldValue(u, f) {
      LookupDirEntries(dirs, f);
    }
  }
}
