/** `build_mac_index`: every observed MAC, with the set of subjects that claimed it. */
module MacIndex {
  import opened Wrappers
  import opened Observations

  const MAC_ADDRESS_PROPERTY := "mac_address"

  type Index = map<string, set<string>>

  function AddClaim(index: Index, mac: string, subject: string): Index {
    index[mac := (if mac in index then index[mac] else {}) + {subject}]
  }

  function IndexOf(os: seq<Observation>): Index {
    if os == [] then map[]
    else
      var index := IndexOf(os[..|os| - 1]);
      match os[|os| - 1]
      case Identity(i) => if i.propertyName == MAC_ADDRESS_PROPERTY then AddClaim(index, i.value, i.subject) else index
      case Relationship(_) => index
  }

  /** `subject` was observed to own `mac`. */
  ghost predicate Claimed(os: seq<Observation>, mac: string, subject: string) {
    exists i :: Identity(i) in os && i.propertyName == "mac_address" && i.value == mac && i.subject == subject
  }

  /** The index is the claim relation: no subject missing, none invented, and no empty entry. */
  lemma {:induction false} IndexExact(os: seq<Observation>, mac: string, subject: string)
    ensures mac in IndexOf(os) && subject in IndexOf(os)[mac] <==> Claimed(os, mac, subject)
    ensures mac in IndexOf(os) ==> IndexOf(os)[mac] != {}
  {
    if os != [] {
      var init, last := os[..|os| - 1], os[|os| - 1];
      assert os == init + [last];
      IndexExact(init, mac, subject);
      if Claimed(os, mac, subject) {
        var i :| Identity(i) in os && i.propertyName == MAC_ADDRESS_PROPERTY && i.value == mac && i.subject == subject;
        assert Identity(i) in init || Identity(i) == last;
      }
      if Claimed(init, mac, subject) {
        var i :| Identity(i) in init && i.propertyName == MAC_ADDRESS_PROPERTY && i.value == mac && i.subject == subject;
        assert Identity(i) in os;
      }
      if last.Identity? && last.identity.propertyName == MAC_ADDRESS_PROPERTY && last.identity.value == mac
         && last.identity.subject == subject {
        assert Identity(last.identity) in os;
      }
    }
  }

  /** More evidence only adds MACs and subjects; repeating or reordering evidence adds nothing. */
  lemma IndexGrows(os: seq<Observation>, os': seq<Observation>)
    requires forall o :: o in os ==> o in os'
    ensures forall mac :: mac in IndexOf(os) ==> mac in IndexOf(os') && IndexOf(os)[mac] <= IndexOf(os')[mac]
  {
    forall mac, s | mac in IndexOf(os) && s in IndexOf(os)[mac] ensures mac in IndexOf(os') && s in IndexOf(os')[mac] {
      IndexExact(os, mac, s);
      IndexExact(os', mac, s);
    }
    forall mac | mac in IndexOf(os) ensures mac in IndexOf(os') && IndexOf(os)[mac] <= IndexOf(os')[mac] {
      IndexExact(os, mac, "");
      var s :| s in IndexOf(os)[mac];
    }
  }

  /** The index is a function of the set of observations: order and repetition do not matter. */
  lemma IndexOrderIndependent(os: seq<Observation>, os': seq<Observation>)
    requires forall o :: o in os <==> o in os'
    ensures IndexOf(os) == IndexOf(os')
  {
    IndexGrows(os, os');
    IndexGrows(os', os);
    assert IndexOf(os).Keys == IndexOf(os').Keys;
    forall mac | mac in IndexOf(os) ensures IndexOf(os)[mac] == IndexOf(os')[mac] {
      assert IndexOf(os)[mac] <= IndexOf(os')[mac] && IndexOf(os')[mac] <= IndexOf(os)[mac];
    }
  }

  method BuildMacIndex(os: seq<Observation>) returns (index: Index)
    ensures index == IndexOf(os)
  {
    index := map[];
    for n := 0 to |os|
      invariant index == IndexOf(os[..n])
    {
      assert os[..n + 1][..n] == os[..n];
      if os[n].Identity? {
        var i := os[n].identity;
        if i.propertyName == MAC_ADDRESS_PROPERTY {
          if i.value !in index { index := index[i.value := {}]; }
          index := index[i.value := index[i.value] + {i.subject}];
        }
      }
    }
    assert os[..|os|] == os;
  }

  /** The only member of a one-member set. */
  function Only(s: set<string>): (x: string)
    requires |s| == 1
    ensures s == {x}
  {
    OneMember(s);
    var x :| x in s;
    x
  }

  lemma OneMember(s: set<string>)
    requires |s| == 1
    ensures exists x :: s == {x}
  {
    var x :| x in s;
    assert |s - {x}| == 0;
    assert s == {x};
  }

  /** The subject a MAC resolves to: absent and ambiguous MACs resolve to nothing. */
  function ResolveMac(index: Index, mac: string): Option<string> {
    if mac in index && |index[mac]| == 1 then Some(Only(index[mac])) else None
  }

  /** A MAC resolves to `subject` exactly when `subject`, and nobody else, claimed it. */
  lemma ResolveMacExact(os: seq<Observation>, mac: string, subject: string)
    ensures ResolveMac(IndexOf(os), mac) == Some(subject) <==>
      Claimed(os, mac, subject) && forall s :: Claimed(os, mac, s) ==> s == subject
  {
    var index := IndexOf(os);
    forall s ensures mac in index && s in index[mac] <==> Claimed(os, mac, s) { IndexExact(os, mac, s); }
    IndexExact(os, mac, subject);
    if Claimed(os, mac, subject) && forall s :: Claimed(os, mac, s) ==> s == subject {
      assert index[mac] == {subject};
    }
  }
}
