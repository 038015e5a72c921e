/** `client/src/hooks/useShareLink.ts`: share links for collections of saved verses, kept only in
    localStorage under `quran-visions-share-links`. `ShareLinkStore` holds that storage slot and
    the saved-verse list the hook reads from `useSavedAyahs`. */
module ShareLinks {

  import opened Wrappers
  import opened Seqs
  import opened BrowserStorage
  import SavedAyahs

  /** A `ShareLink`; `description` and `expiresAt` are optional. */
  datatype ShareLink = ShareLink(
    id: string,
    title: string,
    description: Option<string>,
    ayahs: seq<SavedAyahs.SavedAyah>,
    createdAt: int,
    expiresAt: Option<int>)

  const StorageKey: string := "quran-visions-share-links"

  /** `JSON.parse(localStorage.getItem(key) || '[]')`: no entry reads as the empty list; an
      unreadable one throws (`None`). */
  function Links(stored: Stored<seq<ShareLink>>): (r: Option<seq<ShareLink>>)
    ensures r.None? <==> stored.Corrupt?
    ensures stored.Absent? ==> r == Some([])
    ensures stored.Holds? ==> r == Some(stored.value)
  {
    match stored
    case Absent => Some([])
    case Holds(links) => Some(links)
    case Corrupt => None
  }

  /** `expiresIn ? now + expiresIn : undefined`: an expiry of `0` (or none) means "never". */
  function ExpiresAt(expiresIn: Option<int>, now: int): (r: Option<int>)
    ensures r.Some? <==> expiresIn.Some? && expiresIn.value != 0
    ensures r.Some? ==> r.value - now == expiresIn.value
  {
    if expiresIn.Some? && expiresIn.value != 0 then Some(now + expiresIn.value) else None
  }

  /** The link `createShareLink` builds. */
  function NewLink(id: string, title: string, description: Option<string>, ayahs: seq<SavedAyahs.SavedAyah>,
                   expiresIn: Option<int>, now: int): ShareLink
  {
    ShareLink(id, title, description, ayahs, now, ExpiresAt(expiresIn, now))
  }

  /** `link.expiresAt && link.expiresAt < now`: a truthy expiry time in the past. */
  predicate Expired(l: ShareLink, now: int) {
    l.expiresAt.Some? && l.expiresAt.value != 0 && l.expiresAt.value < now
  }

  function Live(now: int): ShareLink -> bool {
    (l: ShareLink) => !(l.expiresAt.Some? && l.expiresAt.value != 0) || l.expiresAt.value >= now
  }

  function HasId(id: string): ShareLink -> bool {
    (l: ShareLink) => l.id == id
  }

  function NotId(id: string): ShareLink -> bool {
    (l: ShareLink) => l.id != id
  }

  /** The filter of `getAllShareLinks` keeps exactly what `getShareLink` does not call expired:
      a link expiring right now is still live. */
  lemma LiveIffNotExpired(l: ShareLink, now: int)
    ensures Live(now)(l) <==> !Expired(l, now)
    ensures l.expiresAt == Some(now) ==> Live(now)(l)
  {
  }

  /** `links.filter(l => !l.expiresAt || l.expiresAt >= now)`. */
  function LiveLinks(links: seq<ShareLink>, now: int): (r: seq<ShareLink>)
    ensures forall l :: l in r <==> l in links && !Expired(l, now)
    ensures IsSubseq(r, links)
    ensures forall l :: multiset(r)[l] == if !Expired(l, now) then multiset(links)[l] else 0
  {
    FilterMultiset(links, Live(now));
    Filter(links, Live(now))
  }

  /** A link that is no longer live stays so as time goes on. */
  lemma LiveLinksShrink(links: seq<ShareLink>, earlier: int, later: int)
    requires earlier <= later
    ensures forall l :: l in LiveLinks(links, later) ==> l in LiveLinks(links, earlier)
  {
  }

  /** `links.filter(l => l.id !== id)`. */
  function WithoutId(links: seq<ShareLink>, id: string): (r: seq<ShareLink>)
    ensures forall l :: l in r <==> l in links && l.id != id
    ensures IsSubseq(r, links)
    ensures forall l :: multiset(r)[l] == if l.id != id then multiset(links)[l] else 0
  {
    FilterMultiset(links, NotId(id));
    Filter(links, NotId(id))
  }

  /** What `getShareLink` answers from a readable list: the first link with the id, unless it has
      expired. */
  function Lookup(links: seq<ShareLink>, id: string, now: int): (r: Option<ShareLink>)
    ensures r.Some? ==> r.value in links && r.value.id == id && !Expired(r.value, now)
    ensures r.Some? ==>
      exists i :: 0 <= i < |links| && links[i] == r.value && forall j :: 0 <= j < i ==> links[j].id != id
    ensures r.None? <==> (forall l :: l in links ==> l.id != id) || Expired(Find(links, HasId(id)).value, now)
  {
    var link := Find(links, HasId(id));
    var i := FindIndex(links, HasId(id));
    assert link.Some? ==> links[i] == link.value;
    if link.Some? && Expired(link.value, now) then None else link
  }

  /** The storage `getShareLink` leaves behind: the first link with the id having expired, every
      link with that id is deleted; otherwise nothing is written. */
  function AfterLookup(stored: Stored<seq<ShareLink>>, id: string, now: int): (r: Stored<seq<ShareLink>>)
    ensures stored.Corrupt? ==> r == stored
    ensures r == stored || (r.Holds? && forall l :: l in r.value <==> l in Links(stored).value && l.id != id)
    ensures Links(stored).Some? ==> Links(r).Some? && Lookup(Links(r).value, id, now) == Lookup(Links(stored).value, id, now)
    ensures Links(stored).Some? && Lookup(Links(stored).value, id, now).None? && (exists l :: l in Links(stored).value && l.id == id)
      ==> r == Holds(WithoutId(Links(stored).value, id)) && forall l :: l in r.value ==> l.id != id
    ensures !(Links(stored).Some? && Lookup(Links(stored).value, id, now).None? && exists l :: l in Links(stored).value && l.id == id)
      ==> r == stored
  {
    match Links(stored)
    case None => stored
    case Some(links) =>
      var link := Find(links, HasId(id));
      if link.Some? && Expired(link.value, now) then Holds(WithoutId(links, id)) else stored
  }

  /** `getAllShareLinks`: the live links; `[]` when storage cannot be read. */
  function AllLive(stored: Stored<seq<ShareLink>>, now: int): (r: seq<ShareLink>)
    ensures stored.Corrupt? ==> r == []
    ensures stored.Holds? ==> forall l :: l in r <==> l in stored.value && !Expired(l, now)
    ensures stored.Absent? ==> r == []
  {
    match Links(stored)
    case None => []
    case Some(links) => LiveLinks(links, now)
  }

  /** A link just created is found again while it has not expired, provided its id was new. */
  lemma CreateThenLookup(links: seq<ShareLink>, link: ShareLink, now: int)
    requires forall l :: l in links ==> l.id != link.id
    requires !Expired(link, now)
    ensures Lookup(links + [link], link.id, now) == Some(link)
  {
    var all := links + [link];
    forall j | 0 <= j < |links| ensures !HasId(link.id)(all[j]) {
      assert all[j] == links[j] && links[j] in links;
    }
    FindIndexAt(all, HasId(link.id), |links|);
  }

  /** After a link id is deleted, looking it up finds nothing, and looking up another id finds
      what it found before. */
  lemma DeleteThenLookup(links: seq<ShareLink>, id: string, other: string, now: int)
    requires other != id
    ensures Lookup(WithoutId(links, id), id, now).None?
    ensures Lookup(WithoutId(links, id), other, now) == Lookup(links, other, now)
  {
    DeleteKeepsOthers(links, id, other);
  }

  lemma {:induction false} DeleteKeepsOthers(links: seq<ShareLink>, id: string, other: string)
    requires other != id
    ensures Find(WithoutId(links, id), HasId(other)) == Find(links, HasId(other))
    decreases |links|
  {
    if links != [] {
      DeleteKeepsOthers(links[1..], id, other);
      var rest := WithoutId(links[1..], id);
      if links[0].id != id {
        assert WithoutId(links, id) == [links[0]] + rest;
        assert ([links[0]] + rest)[1..] == rest;
      }
    }
  }

  /** `${origin}/share/${id}`. */
  function ShareUrl(origin: string, id: string): (u: string)
    ensures |u| == |origin| + 7 + |id|
    ensures u[..|origin|] == origin && u[|origin|..|origin| + 7] == "/share/"
  {
    origin + "/share/" + id
  }

  /** The id a share URL of this origin carries, if it is one. */
  function ShareIdOf(origin: string, url: string): Option<string> {
    var prefix := origin + "/share/";
    if |prefix| <= |url| && url[..|prefix|] == prefix then Some(url[|prefix|..]) else None
  }

  /** A generated URL gives back its id. */
  lemma ShareUrlRoundTrip(origin: string, id: string)
    ensures ShareIdOf(origin, ShareUrl(origin, id)) == Some(id)
  {
    var prefix := origin + "/share/";
    assert ShareUrl(origin, id) == prefix + id;
    assert (prefix + id)[..|prefix|] == prefix;
    assert (prefix + id)[|prefix|..] == id;
  }

  /** A URL of this origin's share route is the one generated from the id it carries. */
  lemma ShareIdOfGenerated(origin: string, url: string)
    requires ShareIdOf(origin, url).Some?
    ensures ShareUrl(origin, ShareIdOf(origin, url).value) == url
  {
    var prefix := origin + "/share/";
    assert url == url[..|prefix|] + url[|prefix|..];
  }

  /** The hook's view of the browser: the share-link slot and the saved verses it shares. */
  class ShareLinkStore {
    var stored: Stored<seq<ShareLink>>
    var savedAyahs: seq<SavedAyahs.SavedAyah>

    constructor(initial: Stored<seq<ShareLink>>, saved: seq<SavedAyahs.SavedAyah>)
      ensures stored == initial && savedAyahs == saved
    {
      stored, savedAyahs := initial, saved;
    }

    /** `createShareLink`, with the generated id `id` and the clock reading `now`: the link is
        appended to the stored list; a list that cannot be read or written stays as it was, and
        the link is returned either way. */
    method CreateShareLink(title: string, ayahs: seq<SavedAyahs.SavedAyah>, description: Option<string>,
                           expiresIn: Option<int>, id: string, now: int, writeFails: bool)
      returns (link: ShareLink)
      modifies this
      ensures link == NewLink(id, title, description, ayahs, expiresIn, now)
      ensures stored == if old(stored).Corrupt? || writeFails then old(stored)
                        else Holds(Links(old(stored)).value + [link])
      ensures savedAyahs == old(savedAyahs)
    {
      link := NewLink(id, title, description, ayahs, expiresIn, now);
      var links := Links(stored);
      if links.Some? && !writeFails {
        stored := Holds(links.value + [link]);
      }
    }

    /** `getShareLink`: an expired link is deleted and reported as missing. The delete swallows
        its own write failure (`writeFails`), leaving the expired link stored. */
    method GetShareLink(id: string, now: int, writeFails: bool) returns (r: Option<ShareLink>)
      modifies this
      ensures r == if old(stored).Corrupt? then None else Lookup(Links(old(stored)).value, id, now)
      ensures stored == if writeFails then old(stored) else AfterLookup(old(stored), id, now)
      ensures savedAyahs == old(savedAyahs)
    {
      var links := Links(stored);
      if links.None? {
        return None;
      }
      var link := Find(links.value, HasId(id));
      if link.Some? && Expired(link.value, now) {
        DeleteShareLink(id, writeFails);
        return None;
      }
      r := link;
    }

    /** `getAllShareLinks`, over the current storage. */
    function GetAllShareLinks(now: int): (r: seq<ShareLink>)
      reads this
      ensures forall l :: l in r ==> !Expired(l, now)
      ensures stored.Holds? ==> IsSubseq(r, stored.value) && forall l :: l in stored.value && !Expired(l, now) ==> l in r
      ensures !stored.Holds? ==> r == []
    {
      AllLive(stored, now)
    }

    /** `deleteShareLink`: every link with the id goes; storage that cannot be read or written
        stays as it was. */
    method DeleteShareLink(id: string, writeFails: bool)
      modifies this
      ensures stored == if old(stored).Corrupt? || writeFails then old(stored)
                        else Holds(WithoutId(Links(old(stored)).value, id))
      ensures savedAyahs == old(savedAyahs)
    {
      var links := Links(stored);
      if links.Some? && !writeFails {
        stored := Holds(Filter(links.value, NotId(id)));
      }
    }

    /** `createShareLinkFromSaved`: nothing to share gives `null` and stores nothing. */
    method CreateShareLinkFromSaved(title: string, description: Option<string>, expiresIn: Option<int>,
                                    id: string, now: int, writeFails: bool)
      returns (r: Option<ShareLink>)
      modifies this
      ensures |old(savedAyahs)| == 0 ==> r.None? && stored == old(stored)
      ensures |old(savedAyahs)| > 0 ==> r == Some(NewLink(id, title, description, savedAyahs, expiresIn, now))
      ensures |old(savedAyahs)| > 0 ==>
        stored == if old(stored).Corrupt? || writeFails then old(stored)
                  else Holds(Links(old(stored)).value + [r.value])
      ensures savedAyahs == old(savedAyahs)
    {
      if |savedAyahs| == 0 {
        return None;
      }
      var link := CreateShareLink(title, savedAyahs, description, expiresIn, id, now, writeFails);
      r := Some(link);
    }
  }
}
