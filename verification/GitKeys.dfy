/** How a repository and branch, or a project, are named by a lock key. */
module GitKeys {
  import opened Prelude

  predicate Cut(c: char) {
    c in ".git"
  }

  predicate Separator(c: char) {
    c == ':' || c == '/'
  }

  function TrimLeft(s: string): string {
    if s != [] && Cut(s[0]) then TrimLeft(s[1..]) else s
  }

  function TrimRight(s: string): string {
    if s != [] && Cut(Last(s)) then TrimRight(Front(s)) else s
  }

  /** The parts between separators; there is always at least one. */
  function Split(s: string): (parts: seq<string>)
    ensures parts != []
  {
    if s == [] then [""]
    else
      var rest := Split(s[1..]);
      if Separator(s[0]) then [""] + rest else [[s[0]] + rest[0]] + rest[1..]
  }

  /** The lock key, or None where the program panics because the URL has no separator. */
  function GetKey(repo: string, branch: Option<string>): Option<string> {
    match branch
    case None => Some(repo)
    case Some(b) =>
      var parts := Split(TrimRight(TrimLeft(repo)));
      if |parts| < 2 then None
      else Some(parts[|parts| - 2] + "/" + parts[|parts| - 1] + "/" + b)
  }

  predicate Plain(s: string) {
    forall c :: c in s ==> !Separator(c)
  }

  lemma {:induction false} TrimLeftStops(a: string, sep: char, b: string)
    requires Separator(sep)
    ensures TrimLeft(a + [sep] + b) == TrimLeft(a) + [sep] + b
  {
    if a == [] {
      assert (a + [sep] + b)[0] == sep;
      assert a + [sep] + b == [sep] + b;
    } else {
      TrimLeftStops(a[1..], sep, b);
      assert (a + [sep] + b)[1..] == a[1..] + [sep] + b;
    }
  }

  lemma {:induction false} TrimRightStops(a: string, sep: char, b: string)
    requires Separator(sep)
    ensures TrimRight(a + [sep] + b) == a + [sep] + TrimRight(b)
  {
    if b == [] {
      assert Last(a + [sep] + b) == sep;
    } else {
      assert Last(a + [sep] + b) == Last(b);
      assert Front(a + [sep] + b) == a + [sep] + Front(b);
      TrimRightStops(a, sep, Front(b));
    }
  }

  lemma {:induction false} TrimRightPlain(s: string)
    requires Plain(s)
    ensures Plain(TrimRight(s))
  {
    if s != [] && Cut(Last(s)) {
      TrimRightPlain(Front(s));
    }
  }

  lemma TrimRightOne(s: string, c: char)
    requires Cut(c)
    ensures TrimRight(s + [c]) == TrimRight(s)
  {
    assert Front(s + [c]) == s && Last(s + [c]) == c;
  }

  /** Appending ".git" makes no difference to the trimmed name. */
  lemma TrimRightDotGit(s: string)
    ensures TrimRight(s + ".git") == TrimRight(s)
  {
    TrimRightOne(s + ".gi", 't');
    TrimRightOne(s + ".g", 'i');
    TrimRightOne(s + ".", 'g');
    TrimRightOne(s, '.');
    DotGitInParts(s);
  }

  lemma DotGitInParts(s: string)
    ensures s + ['.'] == s + "." && s + "." + ['g'] == s + ".g"
    ensures s + ".g" + ['i'] == s + ".gi" && s + ".gi" + ['t'] == s + ".git"
  {
  }

  lemma {:induction false} SplitPlain(s: string)
    requires Plain(s)
    ensures Split(s) == [s]
  {
    if s != [] {
      SplitPlain(s[1..]);
      assert [s[0]] + s[1..] == s;
    }
  }

  lemma {:induction false} SplitAt(a: string, sep: char, b: string)
    requires Separator(sep)
    ensures Split(a + [sep] + b) == Split(a) + Split(b)
  {
    var s := a + [sep] + b;
    if a == [] {
      assert s[1..] == b;
    } else {
      assert s[1..] == a[1..] + [sep] + b;
      SplitAt(a[1..], sep, b);
    }
  }

  lemma TrimmedUrl(left: string, name: string)
    requires Plain(name)
    ensures Split(left + "/" + name) == Split(left) + [name]
  {
    SplitAt(left, '/', name);
    SplitPlain(name);
  }

  lemma TrimsUrl(pre: string, sep: char, owner: string, name: string)
    requires Separator(sep)
    ensures TrimRight(TrimLeft(pre + [sep] + owner + "/" + name))
            == TrimLeft(pre) + [sep] + owner + "/" + TrimRight(name)
  {
    var left := TrimLeft(pre) + [sep] + owner;
    assert pre + [sep] + owner + "/" + name == pre + [sep] + (owner + "/" + name);
    TrimLeftStops(pre, sep, owner + "/" + name);
    assert TrimLeft(pre) + [sep] + (owner + "/" + name) == left + "/" + name;
    TrimRightStops(left, '/', name);
  }

  /** Any URL that ends in a separator, the owner, a slash and the name gets the key owner/name/branch. */
  lemma UrlKey(pre: string, sep: char, owner: string, name: string, branch: string)
    requires sep == '/' || sep == ':'
    requires '/' !in owner && ':' !in owner && '/' !in name && ':' !in name
    ensures GetKey(pre + [sep] + owner + "/" + name, Some(branch))
            == Some(owner + "/" + TrimRight(name) + "/" + branch)
  {
    TrimsUrl(pre, sep, owner, name);
    TrimRightPlain(name);
    TrimmedUrl(TrimLeft(pre) + [sep] + owner, TrimRight(name));
    SplitAt(TrimLeft(pre), sep, owner);
    SplitPlain(owner);
  }

  /** The https and the ssh URL of a repository, with or without ".git", have one key. */
  lemma AllUrlsOfARepositoryShareAKey(host: string, owner: string, name: string, branch: string)
    requires '/' !in owner && ':' !in owner && '/' !in name && ':' !in name
    ensures
      var https := "https://" + host + "/" + owner + "/" + name;
      var ssh := "git@" + host + ":" + owner + "/" + name;
      var b := Some(branch);
      && GetKey(https, b).Some?
      && GetKey(https + ".git", b) == GetKey(https, b)
      && GetKey(ssh, b) == GetKey(https, b)
      && GetKey(ssh + ".git", b) == GetKey(https, b)
  {
    var https := "https://" + host + "/" + owner + "/" + name;
    var ssh := "git@" + host + ":" + owner + "/" + name;
    UrlKey("https://" + host, '/', owner, name, branch);
    UrlKey("https://" + host, '/', owner, name + ".git", branch);
    UrlKey("git@" + host, ':', owner, name, branch);
    UrlKey("git@" + host, ':', owner, name + ".git", branch);
    TrimRightDotGit(name);
    assert "https://" + host + ['/'] + owner + "/" + (name + ".git") == https + ".git";
    assert "git@" + host + [':'] + owner + "/" + (name + ".git") == ssh + ".git";
  }

  /** A text splits in only one way at its first slash. */
  lemma FirstSlash(a: string, b: string, x: string, y: string)
    requires Plain(a) && Plain(b)
    requires a + "/" + x == b + "/" + y
    ensures a == b && x == y
  {
    NotShorter(a, x, b, y);
    NotShorter(b, y, a, x);
    assert a == (a + "/" + x)[..|a|] && b == (b + "/" + y)[..|b|];
    assert x == (a + "/" + x)[|a| + 1..] && y == (b + "/" + y)[|b| + 1..];
  }

  lemma NotShorter(a: string, x: string, b: string, y: string)
    requires Plain(b)
    requires a + "/" + x == b + "/" + y
    ensures |a| >= |b|
  {
    assert (a + "/" + x)[|a|] == '/';
    assert forall i :: 0 <= i < |b| ==> (b + "/" + y)[i] == b[i] && b[i] in b;
  }

  /** Two repositories and branches have the same key exactly when owner, trimmed name and branch agree. */
  lemma SharedKeyExactly(pre1: string, sep1: char, owner1: string, name1: string, branch1: string,
                         pre2: string, sep2: char, owner2: string, name2: string, branch2: string)
    requires (sep1 == '/' || sep1 == ':') && (sep2 == '/' || sep2 == ':')
    requires '/' !in owner1 && ':' !in owner1 && '/' !in name1 && ':' !in name1
    requires '/' !in owner2 && ':' !in owner2 && '/' !in name2 && ':' !in name2
    ensures GetKey(pre1 + [sep1] + owner1 + "/" + name1, Some(branch1))
            == GetKey(pre2 + [sep2] + owner2 + "/" + name2, Some(branch2))
            <==> owner1 == owner2 && TrimRight(name1) == TrimRight(name2) && branch1 == branch2
  {
    UrlKey(pre1, sep1, owner1, name1, branch1);
    UrlKey(pre2, sep2, owner2, name2, branch2);
    TrimRightPlain(name1);
    TrimRightPlain(name2);
    KeyPartsAreUnique(owner1, TrimRight(name1), branch1, owner2, TrimRight(name2), branch2);
  }

  lemma KeyPartsAreUnique(o1: string, n1: string, b1: string, o2: string, n2: string, b2: string)
    requires Plain(o1) && Plain(n1) && Plain(o2) && Plain(n2)
    ensures o1 + "/" + n1 + "/" + b1 == o2 + "/" + n2 + "/" + b2 <==> o1 == o2 && n1 == n2 && b1 == b2
  {
    assert o1 + "/" + n1 + "/" + b1 == o1 + "/" + (n1 + "/" + b1);
    assert o2 + "/" + n2 + "/" + b2 == o2 + "/" + (n2 + "/" + b2);
    if o1 + "/" + n1 + "/" + b1 == o2 + "/" + n2 + "/" + b2 {
      FirstSlash(o1, o2, n1 + "/" + b1, n2 + "/" + b2);
      FirstSlash(n1, n2, b1, b2);
    }
  }

  /** Keys of projects come before keys of repositories: a repository key has a slash, a project id has none. */
  function Rank(key: string): nat {
    if '/' in key then 1 else 0
  }

  /** Taking a project's lock before its repository's lock follows the order of ranks. */
  lemma ProjectBeforeRepository(projectID: string, repo: string, branch: string)
    requires '/' !in projectID
    requires GetKey(repo, Some(branch)).Some?
    ensures Rank(GetKey(projectID, None).value) < Rank(GetKey(repo, Some(branch)).value)
  {
    var parts := Split(TrimRight(TrimLeft(repo)));
    var n := |parts|;
    var key := parts[n - 2] + "/" + parts[n - 1] + "/" + branch;
    assert key[|parts[n - 2]|] == '/';
  }

  /** Two repositories of one owner with different names and one key. */
  lemma TwoRepositoriesOneKey(branch: string)
    ensures GetKey("https://github.com/litmus/chaos", Some(branch))
            == GetKey("https://github.com/litmus/chaosit", Some(branch))
  {
    var host, owner, name := "https://github.com", "litmus", "chaos";
    TrimRightOne(name, 'i');
    TrimRightOne(name + "i", 't');
    assert name + "i" + "t" == "chaosit";
    SharedKeyExactly(host, '/', owner, name, branch, host, '/', owner, "chaosit", branch);
    assert host + ['/'] + owner + "/" + name == "https://github.com/litmus/chaos";
    assert host + ['/'] + owner + "/" + "chaosit" == "https://github.com/litmus/chaosit";
  }

  // ----- what is trimmed, and the other forms -------------------------------------------------

  /** The longest end of a text made of '.', 'g', 'i' and 't' is cut off. */
  lemma {:induction false} TrimRightExactly(s: string, r: string)
    ensures r == TrimRight(s) <==>
            && r <= s && (forall i :: |r| <= i < |s| ==> s[i] == '.' || s[i] == 'g' || s[i] == 'i' || s[i] == 't')
            && (r != "" ==> var c := r[|r| - 1]; c != '.' && c != 'g' && c != 'i' && c != 't')
    decreases |s|
  {
    if s != [] && Cut(Last(s)) {
      TrimRightExactly(Front(s), r);
      assert r <= s && r != s ==> r <= Front(s);
    } else if r <= s && r != s {
      assert s[|s| - 1] == Last(s);
    }
  }

  lemma {:induction false} TrimLeftExactly(s: string, n: nat)
    requires n <= |s|
    ensures s[n..] == TrimLeft(s) <==>
            && (forall i :: 0 <= i < n ==> s[i] == '.' || s[i] == 'g' || s[i] == 'i' || s[i] == 't')
            && (n < |s| ==> s[n] != '.' && s[n] != 'g' && s[n] != 'i' && s[n] != 't')
  {
    if s != [] && Cut(s[0]) {
      if n > 0 {
        TrimLeftExactly(s[1..], n - 1);
        assert s[n..] == s[1..][n - 1..];
      } else {
        TrimLeftShortens(s[1..]);
      }
    } else if n > 0 {
      assert |s[n..]| < |s|;
    }
  }

  lemma {:induction false} TrimLeftShortens(s: string)
    ensures |TrimLeft(s)| <= |s|
  {
    if s != [] && Cut(s[0]) {
      TrimLeftShortens(s[1..]);
    }
  }

  lemma {:induction false} TrimLeftPlain(s: string)
    requires Plain(s)
    ensures Plain(TrimLeft(s))
  {
    if s != [] && Cut(s[0]) {
      TrimLeftPlain(s[1..]);
    }
  }

  /** With one separator only, the owner is trimmed as well. */
  lemma ShortUrlKey(owner: string, sep: char, name: string, branch: string)
    requires sep == '/' || sep == ':'
    requires '/' !in owner && ':' !in owner && '/' !in name && ':' !in name
    ensures GetKey(owner + [sep] + name, Some(branch))
            == Some(TrimLeft(owner) + "/" + TrimRight(name) + "/" + branch)
  {
    TrimLeftStops(owner, sep, name);
    TrimRightStops(TrimLeft(owner), sep, name);
    TrimLeftPlain(owner);
    TrimRightPlain(name);
    SplitAt(TrimLeft(owner), sep, TrimRight(name));
    SplitPlain(TrimLeft(owner));
    SplitPlain(TrimRight(name));
  }

  /** The program panics exactly on a URL without a separator. */
  lemma PanicsExactly(repo: string, branch: string)
    ensures GetKey(repo, Some(branch)) == None <==> '/' !in repo && ':' !in repo
  {
    if sep: nat :| sep < |repo| && (repo[sep] == '/' || repo[sep] == ':') {
      var a, b := repo[..sep], repo[sep + 1..];
      assert repo == a + [repo[sep]] + b;
      TrimLeftStops(a, repo[sep], b);
      TrimRightStops(TrimLeft(a), repo[sep], b);
      SplitAt(TrimLeft(a), repo[sep], TrimRight(b));
    } else {
      assert Plain(repo);
      TrimLeftPlain(repo);
      TrimRightPlain(TrimLeft(repo));
      SplitPlain(TrimRight(TrimLeft(repo)));
    }
  }

  /** Projects do not share a key with each other, nor with any repository. */
  lemma ProjectKeysAreTheirOwn(p: string, q: string, repo: string, branch: string)
    requires '/' !in p
    ensures GetKey(p, None) == GetKey(q, None) <==> p == q
    ensures GetKey(p, None) != GetKey(repo, Some(branch)) && GetKey(p, None).Some?
  {
    if GetKey(repo, Some(branch)).Some? {
      var parts := Split(TrimRight(TrimLeft(repo)));
      var key := parts[|parts| - 2] + "/" + parts[|parts| - 1] + "/" + branch;
      assert key[|parts[|parts| - 2]|] == '/';
    }
  }
}
