/** Two helpers of the WADO-RS output writers: the directory entries written
    ahead of each file of a ZIP archive, and the completion of a retrieve URL
    down to the instance level. */
module WadoOutputWriters {
  import opened JavaText

  // ---------------------------------------------------------------- ZIP directories

  /** A prefix of `s` that ends in '/': the name of a directory above it. */
  predicate IsDirPrefix(s: string, p: string)
  {
    0 < |p| <= |s| && p == s[..|p|] && p[|p| - 1] == '/'
  }

  /** The prefixes of `s` that end in '/', shortest first. */
  function DirPrefixes(s: string): (r: seq<string>)
  {
    if s == [] then []
    else DirPrefixes(s[..|s| - 1]) + (if s[|s| - 1] == '/' then [s] else [])
  }

  /** DirPrefixes lists exactly the directory prefixes, by increasing length. */
  lemma {:induction false} DirPrefixesExact(s: string)
    ensures forall p :: p in DirPrefixes(s) <==> IsDirPrefix(s, p)
    ensures forall i, j :: 0 <= i < j < |DirPrefixes(s)| ==> |DirPrefixes(s)[i]| < |DirPrefixes(s)[j]|
  {
    if s != [] {
      var init := s[..|s| - 1];
      DirPrefixesExact(init);
      forall p ensures IsDirPrefix(s, p) <==> IsDirPrefix(init, p) || (p == s && s[|s| - 1] == '/') {
        if |p| < |s| && 0 < |p| {
          assert s[..|p|] == init[..|p|];
        }
      }
      var r := DirPrefixes(s);
      forall i, j | 0 <= i < j < |r| ensures |r[i]| < |r[j]| {
        if j == |r| - 1 && s[|s| - 1] == '/' {
          assert r[i] in DirPrefixes(init);
        }
      }
    }
  }

  /** The elements of `ps` not in `added`, in order. */
  function NotIn(ps: seq<string>, added: set<string>): (r: seq<string>)
  {
    if ps == [] then []
    else NotIn(ps[..|ps| - 1], added) + (if ps[|ps| - 1] in added then [] else [ps[|ps| - 1]])
  }

  /** NotIn keeps exactly the elements not in `added`. */
  lemma {:induction false} NotInMembers(ps: seq<string>, added: set<string>)
    ensures var r := NotIn(ps, added);
      && (forall k :: 0 <= k < |r| ==> r[k] in ps && r[k] !in added)
      && (forall p :: p in ps && p !in added ==> p in r)
  {
    if ps != [] {
      var init := ps[..|ps| - 1];
      NotInMembers(init, added);
      assert ps == init + [ps[|ps| - 1]];
    }
  }

  /** No entry occurs twice. */
  predicate Distinct(xs: seq<string>)
  {
    forall i, j :: 0 <= i < j < |xs| ==> xs[i] != xs[j]
  }

  /** What is kept of a list without repetitions has none either. */
  lemma {:induction false} NotInDistinct(ps: seq<string>, added: set<string>)
    requires Distinct(ps)
    ensures Distinct(NotIn(ps, added))
  {
    if ps != [] {
      var init := ps[..|ps| - 1];
      NotInDistinct(init, added);
      NotInMembers(init, added);
      var r := NotIn(ps, added);
      forall i, j | 0 <= i < j < |r| ensures r[i] != r[j] {
        if j == |r| - 1 && ps[|ps| - 1] !in added {
          assert r[i] in init;
        }
      }
    }
  }

  /** Appending entries that are new and distinct keeps a list distinct. */
  lemma DistinctAppend(xs: seq<string>, ys: seq<string>, added: set<string>)
    requires Distinct(xs) && Distinct(ys) && SetOf(xs) == added
    requires forall k :: 0 <= k < |ys| ==> ys[k] !in added
    ensures Distinct(xs + ys)
  {
    var zs := xs + ys;
    forall i, j | 0 <= i < j < |zs| ensures zs[i] != zs[j] {
      if i < |xs| <= j {
        assert zs[i] in added && zs[j] == ys[j - |xs|];
      } else if |xs| <= i {
        assert zs[i] == ys[i - |xs|] && zs[j] == ys[j - |xs|];
      }
    }
  }

  /** The ZIP writer's state as addDirEntries sees it: the names already
      `added`, and the directory `entries` written to the stream, in order. */
  class ZipDirectories {
    var added: set<string>
    var entries: seq<string>

    /** Every directory was written once, and exactly the added ones were. */
    predicate Valid()
      reads this
    {
      Distinct(entries) && SetOf(entries) == added
    }

    constructor()
      ensures Valid() && added == {} && entries == []
    {
      added := {};
      entries := [];
    }

    /** addDirEntries: every '/'-terminated prefix of `name` is added; the ones
        not added before are written, shortest first. */
    method AddDirEntries(name: string)
      requires Valid()
      modifies this
      ensures Valid()
      ensures added == old(added) + SetOf(DirPrefixes(name))
      ensures entries == old(entries) + NotIn(DirPrefixes(name), old(added))
    {
      ghost var before := added;
      ghost var written := entries;
      AddPrefixes(name);
      WrittenOnce(written, name, before);
    }

    /** The loop of addDirEntries: each '/' found after the previous one ends a
        prefix, which is added as an entry. */
    method AddPrefixes(name: string)
      modifies this
      ensures added == old(added) + SetOf(DirPrefixes(name))
      ensures entries == old(entries) + NotIn(DirPrefixes(name), old(added))
    {
      ghost var before := added;
      ghost var written := entries;
      var endIndex := 0;
      while true
        invariant 0 <= endIndex <= |name|
        invariant added == before + SetOf(DirPrefixes(name[..endIndex]))
        invariant entries == written + NotIn(DirPrefixes(name[..endIndex]), before)
        decreases |name| - endIndex
      {
        var i := IndexOfCharFrom(name, '/', endIndex);
        if i < 0 {
          NoSlashLeft(name, endIndex);
          break;
        }
        DirStep(name, endIndex, i, before, written);
        AddEntry(name[..i + 1]);
        endIndex := i + 1;
      }
    }

    /** One directory entry: written and recorded unless it was added before. */
    method AddEntry(entry: string)
      modifies this
      ensures added == old(added) + {entry}
      ensures entries == old(entries) + if entry in old(added) then [] else [entry]
    {
      if entry !in added {
        added := added + {entry};
        entries := entries + [entry];
      } else {
        assert entries + [] == entries;
      }
    }
  }

  function SetOf(ps: seq<string>): set<string>
  {
    set p | p in ps
  }

  /** One '/' found at `i` after `e`: its prefix is the next directory, not one
      listed before. */
  lemma DirStep(name: string, e: nat, i: nat, before: set<string>, written: seq<string>)
    requires e <= |name| && i == IndexOfCharFrom(name, '/', e) >= 0
    ensures var ps, next, entry := DirPrefixes(name[..e]), DirPrefixes(name[..i + 1]), name[..i + 1];
      && before + SetOf(next) == before + SetOf(ps) + {entry}
      && written + NotIn(next, before) ==
         written + NotIn(ps, before) + if entry in before + SetOf(ps) then [] else [entry]
  {
    var ps := DirPrefixes(name[..e]);
    var entry := name[..i + 1];
    IndexOfCharFromFirst(name, '/', e);
    NoSlashAfter(name, e, i);
    DirPrefixesSnoc(name, i);
    DirPrefixesExact(name[..e]);
    assert (ps + [entry])[..|ps|] == ps;
    assert SetOf(ps + [entry]) == SetOf(ps) + {entry};
    var rest := NotIn(ps, before);
    assert NotIn(ps + [entry], before) == rest + (if entry in before then [] else [entry]);
    assert entry in before + SetOf(ps) <==> entry in before;
    if entry !in before {
      assert written + (rest + [entry]) == written + rest + [entry];
    } else {
      assert rest + [] == rest;
    }
  }

  /** After the loop: the written list stays distinct and holds exactly the
      added names. */
  lemma WrittenOnce(written: seq<string>, name: string, before: set<string>)
    requires Distinct(written) && SetOf(written) == before
    ensures Distinct(written + NotIn(DirPrefixes(name), before))
    ensures SetOf(written + NotIn(DirPrefixes(name), before)) == before + SetOf(DirPrefixes(name))
  {
    var ps := DirPrefixes(name);
    DirPrefixesExact(name);
    var news := NotIn(ps, before);
    NotInDistinct(ps, before);
    NotInMembers(ps, before);
    DistinctAppend(written, news, before);
    assert SetOf(written + news) == SetOf(written) + SetOf(news);
  }

  /** String.indexOf(c, from): the first `c` at or after `from`, or -1. */
  function IndexOfCharFrom(s: string, c: char, from: nat): (r: int)
    requires from <= |s|
    ensures r == -1 || from <= r < |s|
    ensures r >= 0 ==> s[r] == c
  {
    var j := IndexOfChar(s[from..], c);
    if j < 0 then -1 else from + j
  }

  /** indexOf(c, from) skips no `c`. */
  lemma IndexOfCharFromFirst(s: string, c: char, from: nat)
    requires from <= |s|
    ensures var r := IndexOfCharFrom(s, c, from);
      forall k :: from <= k < (if r < 0 then |s| else r) ==> s[k] != c
  {
    var r := IndexOfChar(s[from..], c);
    forall k | from <= k < (if r < 0 then |s| else from + r) ensures s[k] != c {
      assert s[from..][k - from] == s[k];
    }
  }

  /** With no '/' left after `e`, the prefixes found so far are all of them. */
  lemma NoSlashLeft(name: string, e: nat)
    requires e <= |name| && IndexOfCharFrom(name, '/', e) < 0
    ensures DirPrefixes(name) == DirPrefixes(name[..e])
  {
    IndexOfCharFromFirst(name, '/', e);
    NoSlashAfter(name, e, |name|);
    assert name[..|name|] == name;
  }

  /** Text without '/' adds no prefix. */
  lemma {:induction false} NoSlashAfter(s: string, e: nat, j: nat)
    requires e <= j <= |s| && forall k :: e <= k < j ==> s[k] != '/'
    ensures DirPrefixes(s[..j]) == DirPrefixes(s[..e])
    decreases j
  {
    if j > e {
      assert s[..j][..j - 1] == s[..j - 1];
      NoSlashAfter(s, e, j - 1);
    }
  }

  lemma DirPrefixesSnoc(s: string, i: nat)
    requires i < |s| && s[i] == '/'
    ensures DirPrefixes(s[..i + 1]) == DirPrefixes(s[..i]) + [s[..i + 1]]
  {
    assert s[..i + 1][..i] == s[..i];
  }

  // ---------------------------------------------------------------- instance URL

  const SeriesSegment: string := "/series/"
  const InstancesSegment: string := "/instances/"

  /** mkInstanceURL: a URL that already names an instance is kept; otherwise
      "/series/{uid}" is added when it names no series, then "/instances/{uid}". */
  function InstanceUrl(url: string, seriesUid: string, sopUid: string): (r: string)
    ensures r == url <==> LastIndexOf(url, InstancesSegment) >= 0
  {
    if LastIndexOf(url, InstancesSegment) >= 0 then url
    else if LastIndexOf(url, SeriesSegment) < 0 then url + SeriesSegment + seriesUid + InstancesSegment + sopUid
    else url + InstancesSegment + sopUid
  }

  /** The same, appending to the StringBuffer. */
  method MkInstanceUrl(sb: StringBuffer, seriesUid: string, sopUid: string)
    modifies sb
    ensures sb.text == InstanceUrl(old(sb.text), seriesUid, sopUid)
  {
    if LastIndexOf(sb.text, InstancesSegment) < 0 {
      if LastIndexOf(sb.text, SeriesSegment) < 0 {
        sb.Append(SeriesSegment);
        sb.Append(seriesUid);
      }
      sb.Append(InstancesSegment);
      sb.Append(sopUid);
    }
  }

  /** `d` occurs in `s` exactly when lastIndexOf finds it. */
  lemma LastIndexOfFinds(s: string, d: string, k: int)
    requires OccursAt(s, d, k)
    ensures LastIndexOf(s, d) >= k
  {
  }

  lemma OccursAtEnd(a: string, d: string, b: string)
    ensures OccursAt(a + d + b, d, |a|)
  {
    assert (a + d + b)[|a|..|a| + |d|] == d;
  }

  /** The URL is extended, never rewritten; it names an instance afterwards, and
      the SOP instance UID is its last part unless one was named already. */
  lemma InstanceUrlExtends(url: string, seriesUid: string, sopUid: string)
    ensures var r := InstanceUrl(url, seriesUid, sopUid);
      |r| >= |url| && r[..|url|] == url && LastIndexOf(r, InstancesSegment) >= 0
    ensures LastIndexOf(url, InstancesSegment) >= 0 <==> InstanceUrl(url, seriesUid, sopUid) == url
    ensures LastIndexOf(url, InstancesSegment) < 0 ==>
      var r := InstanceUrl(url, seriesUid, sopUid);
      r[|r| - |sopUid| - |InstancesSegment|..] == InstancesSegment + sopUid
  {
    if LastIndexOf(url, InstancesSegment) < 0 {
      if LastIndexOf(url, SeriesSegment) < 0 {
        var prefix := url + SeriesSegment + seriesUid;
        InstancesAppended(prefix, sopUid);
        assert prefix[..|url|] == url;
      } else {
        InstancesAppended(url, sopUid);
      }
    }
  }

  /** Appending "/instances/{uid}" keeps the prefix and names an instance. */
  lemma InstancesAppended(prefix: string, sopUid: string)
    ensures var r := prefix + InstancesSegment + sopUid;
      && |r| > |prefix| && r[..|prefix|] == prefix && LastIndexOf(r, InstancesSegment) >= 0
      && r[|r| - |sopUid| - |InstancesSegment|..] == InstancesSegment + sopUid
  {
    var r := prefix + InstancesSegment + sopUid;
    OccursAtEnd(prefix, InstancesSegment, sopUid);
    LastIndexOfFinds(r, InstancesSegment, |prefix|);
    assert r[|prefix|..] == InstancesSegment + sopUid;
  }

  /** The series part is added exactly when the URL named neither an instance
      nor a series. */
  lemma InstanceUrlAddsSeries(url: string, seriesUid: string, sopUid: string)
    ensures InstanceUrl(url, seriesUid, sopUid) == url + SeriesSegment + seriesUid + InstancesSegment + sopUid
      <== LastIndexOf(url, InstancesSegment) < 0 && LastIndexOf(url, SeriesSegment) < 0
    ensures LastIndexOf(url, InstancesSegment) < 0 && LastIndexOf(url, SeriesSegment) >= 0 ==>
      InstanceUrl(url, seriesUid, sopUid) == url + InstancesSegment + sopUid
  {
  }

  /** Completing a URL twice is completing it once. */
  lemma InstanceUrlIdempotent(url: string, seriesUid: string, sopUid: string)
    ensures InstanceUrl(InstanceUrl(url, seriesUid, sopUid), seriesUid, sopUid) == InstanceUrl(url, seriesUid, sopUid)
  {
    InstanceUrlExtends(url, seriesUid, sopUid);
  }
}
