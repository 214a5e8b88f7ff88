/**
 * The contact manager's in-memory list of store contacts: adding a
 * contact, the search filter, updating the first contact with a given
 * store name, and deleting the first one whose deletion the user confirms.
 * The user's typed answers are parameters.
 */
module Contacts {
  import opened Base
  import opened Text

  /** One record `{"store_name", "phone", "email", "address"}`. */
  datatype Contact = Contact(storeName: string, phone: string, email: string, address: string)

  /** The search test: the lower-cased store name or the phone number contains the keyword. */
  predicate Hit(c: Contact, keyword: string)
  {
    Contains(Lower(c.storeName), keyword) || Contains(c.phone, keyword)
  }

  /** The contacts of `cs` that the keyword hits, in their order in `cs`. */
  function Found(cs: seq<Contact>, keyword: string): (r: seq<Contact>)
    ensures |r| <= |cs|
  {
    if |cs| == 0 then []
    else (if Hit(cs[0], keyword) then [cs[0]] else []) + Found(cs[1..], keyword)
  }

  /** `search_contact`: the keyword is lower-cased before filtering. */
  function Search(cs: seq<Contact>, keyword: string): seq<Contact>
  {
    Found(cs, Lower(keyword))
  }

  /** A contact is found exactly when it is in the list and the keyword hits it. */
  lemma {:induction false} FoundMembers(cs: seq<Contact>, keyword: string)
    ensures forall c :: c in Found(cs, keyword) <==> c in cs && Hit(c, keyword)
  {
    if |cs| > 0 {
      FoundMembers(cs[1..], keyword);
      assert cs == [cs[0]] + cs[1..];
    }
  }

  /** Filtering a concatenation filters each part and keeps them in order. */
  lemma {:induction false} FoundAppend(xs: seq<Contact>, ys: seq<Contact>, keyword: string)
    ensures Found(xs + ys, keyword) == Found(xs, keyword) + Found(ys, keyword)
  {
    if |xs| == 0 {
      assert xs + ys == ys;
    } else {
      var head := if Hit(xs[0], keyword) then [xs[0]] else [];
      assert (xs + ys)[0] == xs[0];
      assert (xs + ys)[1..] == xs[1..] + ys;
      FoundAppend(xs[1..], ys, keyword);
      assert Found(xs + ys, keyword) == head + Found(xs[1..] + ys, keyword);
      assert Found(xs, keyword) == head + Found(xs[1..], keyword);
    }
  }

  /** Every contact passes the empty keyword, so searching for nothing lists everyone. */
  lemma {:induction false} FoundEverything(cs: seq<Contact>)
    ensures Found(cs, "") == cs
  {
    if |cs| > 0 {
      ContainsBasics(Lower(cs[0].storeName));
      FoundEverything(cs[1..]);
    }
  }

  /**
   * `search_contact` finds exactly the listed contacts whose lower-cased
   * store name or phone contains the lower-cased keyword, so the case of
   * the keyword never matters.
   */
  lemma SearchSpec(cs: seq<Contact>, keyword: string)
    ensures forall c :: c in Search(cs, keyword) <==>
              c in cs && (Contains(Lower(c.storeName), Lower(keyword)) || Contains(c.phone, Lower(keyword)))
    ensures Search(cs, Lower(keyword)) == Search(cs, keyword)
  {
    FoundMembers(cs, Lower(keyword));
    LowerIdempotent(keyword);
  }

  /** The store name a query is compared with: both sides are lower-cased. */
  predicate NameIs(c: Contact, key: string)
  {
    Lower(c.storeName) == key
  }

  /** The indices below `n` of the contacts whose lower-cased store name is `key`, in increasing order. */
  function Matches(cs: seq<Contact>, key: string, n: nat): (m: seq<nat>)
    requires n <= |cs|
    ensures |m| <= n
    ensures forall p | 0 <= p < |m| :: m[p] < n
  {
    if n == 0 then []
    else Matches(cs, key, n - 1) + (if NameIs(cs[n - 1], key) then [n - 1] else [])
  }

  /** `Matches` lists exactly the matching indices, strictly increasing. */
  lemma {:induction false} MatchesSpec(cs: seq<Contact>, key: string, n: nat)
    requires n <= |cs|
    ensures forall p | 0 <= p < |Matches(cs, key, n)| :: NameIs(cs[Matches(cs, key, n)[p]], key)
    ensures forall i | 0 <= i < n :: NameIs(cs[i], key) <==> i in Matches(cs, key, n)
    ensures forall p, q | 0 <= p < q < |Matches(cs, key, n)| ::
              Matches(cs, key, n)[p] < Matches(cs, key, n)[q]
  {
    if n > 0 {
      MatchesSpec(cs, key, n - 1);
    }
  }

  /** Scanning further only adds later matches: the matches below `n` begin those below `n'`. */
  lemma {:induction false} MatchesPrefix(cs: seq<Contact>, key: string, n: nat, n': nat)
    requires n <= n' <= |cs|
    ensures Matches(cs, key, n) <= Matches(cs, key, n')
    decreases n' - n
  {
    if n < n' {
      MatchesPrefix(cs, key, n, n' - 1);
    }
  }

  /** The contact `update_contact` edits: the first whose lower-cased name is `key`. */
  function UpdateTarget(cs: seq<Contact>, key: string): Option<nat>
  {
    var m := Matches(cs, key, |cs|);
    if |m| == 0 then None else Some(m[0])
  }

  /** The target, if any, is the first match; there is none only when no contact matches. */
  lemma UpdateTargetSpec(cs: seq<Contact>, key: string)
    ensures UpdateTarget(cs, key).None? <==> forall i | 0 <= i < |cs| :: !NameIs(cs[i], key)
    ensures UpdateTarget(cs, key).Some? ==>
              var t := UpdateTarget(cs, key).value;
              t < |cs| && NameIs(cs[t], key) && forall i | 0 <= i < t :: !NameIs(cs[i], key)
  {
    MatchesSpec(cs, key, |cs|);
  }

  /** `answer or old`: a blank answer keeps the old value. */
  function KeepIfBlank(answer: string, current: string): (r: string)
    ensures answer != [] ==> r == answer
    ensures answer == [] ==> r == current
  {
    if answer == [] then current else answer
  }

  /** The four answers of an update, one per field. */
  datatype Edit = Edit(storeName: string, phone: string, email: string, address: string)

  /** A contact after an update. */
  function Edited(c: Contact, e: Edit): Contact
  {
    Contact(KeepIfBlank(e.storeName, c.storeName), KeepIfBlank(e.phone, c.phone),
            KeepIfBlank(e.email, c.email), KeepIfBlank(e.address, c.address))
  }

  /** Blank answers change nothing, and giving the same answers again changes nothing more. */
  lemma EditedProperties(c: Contact, e: Edit)
    ensures Edited(c, Edit("", "", "", "")) == c
    ensures Edited(Edited(c, e), e) == Edited(c, e)
  {
  }

  /** A confirmation accepts exactly `y` or `Y`. */
  predicate Confirms(answer: string)
  {
    Lower(answer) == "y"
  }

  /** The first of the first `n` answers that confirms. */
  function FirstYes(answers: seq<string>, n: nat): (r: Option<nat>)
    requires n <= |answers|
    ensures r.Some? ==> r.value < n && Confirms(answers[r.value])
    ensures r.Some? ==> forall p | 0 <= p < r.value :: !Confirms(answers[p])
    ensures r.None? <==> forall p | 0 <= p < n :: !Confirms(answers[p])
  {
    if n == 0 then None
    else if FirstYes(answers, n - 1).Some? then FirstYes(answers, n - 1)
    else if Confirms(answers[n - 1]) then Some(n - 1)
    else None
  }

  /** An answer that confirms after only declined ones is the first yes of any longer prefix. */
  lemma {:induction false} FirstYesIs(answers: seq<string>, n: nat, p: nat)
    requires p < n <= |answers| && Confirms(answers[p])
    requires forall q | 0 <= q < p :: !Confirms(answers[q])
    ensures FirstYes(answers, n) == Some(p)
  {
    if n > p + 1 {
      FirstYesIs(answers, n - 1, p);
    }
  }

  /**
   * The contact `delete_contact` removes: the user is asked once per
   * matching contact, in order, and the first confirmed one is removed.
   */
  function DeleteTarget(cs: seq<Contact>, key: string, answers: seq<string>): Option<nat>
    requires |Matches(cs, key, |cs|)| <= |answers|
  {
    var m := Matches(cs, key, |cs|);
    match FirstYes(answers, |m|)
    case None => None
    case Some(p) => Some(m[p])
  }

  /**
   * The removed contact is a match the user confirmed, every earlier match
   * was declined, and nothing is removed when no match is confirmed.
   */
  lemma DeleteTargetSpec(cs: seq<Contact>, key: string, answers: seq<string>) returns (p: nat)
    requires |Matches(cs, key, |cs|)| <= |answers|
    ensures DeleteTarget(cs, key, answers).None? <==>
              forall q | 0 <= q < |Matches(cs, key, |cs|)| :: !Confirms(answers[q])
    ensures DeleteTarget(cs, key, answers).Some? ==>
              var t := DeleteTarget(cs, key, answers).value;
              && t < |cs| && NameIs(cs[t], key)
              && p < |Matches(cs, key, |cs|)| && Matches(cs, key, |cs|)[p] == t
              && Confirms(answers[p]) && forall q | 0 <= q < p :: !Confirms(answers[q])
  {
    MatchesSpec(cs, key, |cs|);
    var r := FirstYes(answers, |Matches(cs, key, |cs|)|);
    p := if r.Some? then r.value else 0;
  }

  /** `s` without its element at index `t`. */
  function RemoveAt<T>(s: seq<T>, t: nat): (r: seq<T>)
    requires t < |s|
    ensures |r| == |s| - 1
    ensures forall i | 0 <= i < t :: r[i] == s[i]
    ensures forall i | t <= i < |r| :: r[i] == s[i + 1]
  {
    s[..t] + s[t + 1..]
  }

  /** The module-level `contacts` list. */
  class ContactBook {
    var contacts: seq<Contact>

    constructor (loaded: seq<Contact>)
      ensures contacts == loaded
    {
      contacts := loaded;
    }

    /** `add_contact`: the new record goes at the end. */
    method Add(c: Contact)
      modifies this
      ensures contacts == old(contacts) + [c]
    {
      contacts := contacts + [c];
    }

    /**
     * `update_contact`: the first contact whose store name equals the query,
     * ignoring case, takes the non-blank answers; reports whether one was found.
     */
    method Update(query: string, edit: Edit) returns (found: bool)
      modifies this
      ensures var t := UpdateTarget(old(contacts), Lower(query));
              && found == t.Some?
              && (t.None? ==> contacts == old(contacts))
              && (t.Some? ==> contacts == old(contacts)[t.value := Edited(old(contacts)[t.value], edit)])
    {
      var key := Lower(query);
      var i := 0;
      while i < |contacts|
        invariant 0 <= i <= |contacts|
        invariant contacts == old(contacts)
        invariant Matches(contacts, key, i) == []
      {
        if Lower(contacts[i].storeName) == key {
          MatchesPrefix(contacts, key, i + 1, |contacts|);
          contacts := contacts[i := Edited(contacts[i], edit)];
          return true;
        }
        i := i + 1;
      }
      found := false;
    }

    /**
     * `delete_contact`: `answers` holds the user's replies to the
     * confirmation prompt, one per matching contact in list order; the first
     * contact answered with `y` is removed. Reports whether one was removed.
     */
    method Delete(query: string, answers: seq<string>) returns (deleted: bool)
      requires |Matches(contacts, Lower(query), |contacts|)| <= |answers|
      modifies this
      ensures var t := DeleteTarget(old(contacts), Lower(query), answers);
              && deleted == t.Some?
              && (t.None? ==> contacts == old(contacts))
              && (t.Some? ==> t.value < |old(contacts)| && contacts == RemoveAt(old(contacts), t.value))
    {
      var key := Lower(query);
      ghost var all := Matches(contacts, key, |contacts|);
      var i, k := 0, 0;
      while i < |contacts|
        invariant 0 <= i <= |contacts|
        invariant contacts == old(contacts)
        invariant k == |Matches(contacts, key, i)| && k <= |all|
        invariant Matches(contacts, key, i) <= all
        invariant forall q | 0 <= q < k :: !Confirms(answers[q])
      {
        MatchesPrefix(contacts, key, i + 1, |contacts|);
        if Lower(contacts[i].storeName) == key {
          assert all[k] == i;
          if Lower(answers[k]) == "y" {
            FirstYesIs(answers, |all|, k);
            contacts := RemoveAt(contacts, i);
            return true;
          }
          k := k + 1;
        }
        i := i + 1;
      }
      deleted := false;
    }
  }
}
