/** The worker's check that a release's uploaded objects are exactly the artifacts its manifest declares. */
module Artifacts {
  import opened Wrappers

  datatype Declared = Declared(name: string, fileName: string, sha256: string, size: nat)

  datatype Uploaded = Uploaded(fileName: string, expectedSha256: string, expectedSize: nat, url: string)

  datatype Release = Release(web: bool, federation: bool, declared: seq<Declared>, uploaded: seq<Uploaded>)

  datatype Rejection = FederationCount | CountDiffers | NoExactObject(name: string)

  /** What has to agree between an artifact and its object. */
  datatype Identity = Identity(fileName: string, sha256: string, size: nat)

  function IdentityOfDeclared(d: Declared): Identity { Identity(d.fileName, d.sha256, d.size) }

  function DeclaredIdentities(s: seq<Declared>): multiset<Identity>
  {
    multiset(seq(|s|, i requires 0 <= i < |s| => IdentityOfDeclared(s[i])))
  }

  function IdentityOf(u: Uploaded): Identity { Identity(u.fileName, u.expectedSha256, u.expectedSize) }

  function UploadedIdentities(s: seq<Uploaded>): multiset<Identity>
  {
    multiset(seq(|s|, i requires 0 <= i < |s| => IdentityOf(s[i])))
  }

  predicate Matches(u: Uploaded, d: Declared)
  {
    u.fileName == d.fileName && u.expectedSha256 == d.sha256 && u.expectedSize == d.size
  }

  /** `findIndex`: the first candidate that matches. */
  method FindIndex(remaining: seq<Uploaded>, d: Declared) returns (index: int)
    ensures -1 <= index < |remaining|
    ensures index >= 0 ==> Matches(remaining[index], d) && forall k :: 0 <= k < index ==> !Matches(remaining[k], d)
    ensures index < 0 ==> IdentityOfDeclared(d) !in UploadedIdentities(remaining)
  {
    for n := 0 to |remaining|
      invariant forall k :: 0 <= k < n ==> !Matches(remaining[k], d)
    {
      if Matches(remaining[n], d) { return n; }
    }
    index := -1;
    NotFound(remaining, d);
  }

  lemma NotFound(remaining: seq<Uploaded>, d: Declared)
    requires forall k :: 0 <= k < |remaining| ==> !Matches(remaining[k], d)
    ensures IdentityOfDeclared(d) !in UploadedIdentities(remaining)
  {
    var ids := seq(|remaining|, k requires 0 <= k < |remaining| => IdentityOf(remaining[k]));
    assert forall k :: 0 <= k < |ids| ==> Matches(remaining[k], d) || ids[k] != IdentityOfDeclared(d);
  }

  lemma RemoveOne(s: seq<Uploaded>, i: nat)
    requires i < |s|
    ensures UploadedIdentities(s) == UploadedIdentities(s[..i] + s[i + 1..]) + multiset{IdentityOf(s[i])}
  {
    var ids := seq(|s|, k requires 0 <= k < |s| => IdentityOf(s[k]));
    var rest := s[..i] + s[i + 1..];
    var restIds := seq(|rest|, k requires 0 <= k < |rest| => IdentityOf(rest[k]));
    assert ids == ids[..i] + [IdentityOf(s[i])] + ids[i + 1..];
    assert restIds == ids[..i] + ids[i + 1..];
  }

  lemma AddOne(s: seq<Declared>, n: nat)
    requires n < |s|
    ensures DeclaredIdentities(s[..n + 1])
         == DeclaredIdentities(s[..n]) + multiset{IdentityOfDeclared(s[n])}
  {
    var t := s[..n + 1];
    var ids := seq(|t|, i requires 0 <= i < |t| => IdentityOfDeclared(t[i]));
    var u := s[..n];
    var before := seq(|u|, i requires 0 <= i < |u| => IdentityOfDeclared(u[i]));
    assert ids == before + [IdentityOfDeclared(s[n])];
  }

  lemma {:induction false} PrefixIncluded(s: seq<Declared>, n: nat, m: nat)
    requires n <= m <= |s|
    ensures DeclaredIdentities(s[..n]) <= DeclaredIdentities(s[..m])
    decreases m - n
  {
    if n < m {
      AddOne(s, m - 1);
      PrefixIncluded(s, n, m - 1);
    }
  }

  lemma UploadedSize(s: seq<Uploaded>)
    ensures |UploadedIdentities(s)| == |s|
  {
  }

  lemma DeclaredSize(s: seq<Declared>)
    ensures |DeclaredIdentities(s)| == |s|
  {
  }

  /** With nothing left for `id`, the objects cannot cover one more declaration of it, nor any longer list. */
  lemma OneTooMany(uploaded: multiset<Identity>, remaining: multiset<Identity>, declared: multiset<Identity>,
                   id: Identity, more: multiset<Identity>, all: multiset<Identity>)
    requires uploaded == remaining + declared && id !in remaining && more == declared + multiset{id} && more <= all
    ensures declared <= uploaded && !(more <= uploaded) && all != uploaded
  {
    assert more[id] > uploaded[id];
  }

  predicate WrongCount(r: Release) { r.web && r.federation && |r.declared| != 1 }

  /** Artifact `n` is the first that has fewer objects than declarations. */
  predicate ShortAt(r: Release, n: nat)
    requires n < |r.declared|
  {
    DeclaredIdentities(r.declared[..n]) <= UploadedIdentities(r.uploaded)
    && !(DeclaredIdentities(r.declared[..n + 1]) <= UploadedIdentities(r.uploaded))
  }

  /**
   Taking the first match for each declared artifact accepts exactly when both sides are the same multiset of
   (file name, digest, size); a rejection names the first artifact that has fewer objects than declarations.
   */
  method AssertArtifactSetMatchesManifest(r: Release) returns (verdict: Option<Rejection>)
    ensures verdict == Some(FederationCount) <==> WrongCount(r)
    ensures verdict == Some(CountDiffers) <==> !WrongCount(r) && |r.declared| != |r.uploaded|
    ensures verdict.None? <==> !WrongCount(r) && DeclaredIdentities(r.declared) == UploadedIdentities(r.uploaded)
    ensures verdict.Some? && verdict.value.NoExactObject? ==>
              exists n :: 0 <= n < |r.declared| && r.declared[n].name == verdict.value.name && ShortAt(r, n)
  {
    hide DeclaredIdentities, UploadedIdentities;
    DeclaredSize(r.declared);
    UploadedSize(r.uploaded);
    if r.web && r.federation && |r.declared| != 1 { return Some(FederationCount); }
    if |r.declared| != |r.uploaded| { return Some(CountDiffers); }
    var remaining := r.uploaded;
    NoneDeclared(r.declared);
    assert r.declared[..|r.declared|] == r.declared;
    for n := 0 to |r.declared|
      invariant |remaining| == |r.uploaded| - n
      invariant UploadedIdentities(r.uploaded) == UploadedIdentities(remaining) + DeclaredIdentities(r.declared[..n])
    {
      var index := FindIndex(remaining, r.declared[n]);
      AddOne(r.declared, n);
      if index < 0 {
        PrefixIncluded(r.declared, n + 1, |r.declared|);
        OneTooMany(UploadedIdentities(r.uploaded), UploadedIdentities(remaining), DeclaredIdentities(r.declared[..n]),
                   IdentityOfDeclared(r.declared[n]), DeclaredIdentities(r.declared[..n + 1]),
                   DeclaredIdentities(r.declared));
        assert ShortAt(r, n);
        return Some(NoExactObject(r.declared[n].name));
      }
      RemoveOne(remaining, index);
      remaining := remaining[..index] + remaining[index + 1..];
    }
    UploadedSize(remaining);
    verdict := None;
  }

  lemma NoneDeclared(s: seq<Declared>)
    ensures DeclaredIdentities(s[..0]) == multiset{}
  {
    DeclaredSize(s[..0]);
  }
}
