/**
  `getImageUrl` (src/utils/imageUtils.ts): the URL the client shows for a
  stored media URL. Links into the private storage endpoint and links on the
  retired public host are moved onto the current public CDN host; anything
  else is kept. `None` stands for null and undefined alike.
*/
module ImageUtils {
  import opened Wrappers
  import opened Js

  const Scheme := "https://"
  /** The storage account the old links name. */
  const Account := "197bd1784412aaae4b1982dfb83c5ab0"
  /** The host name that marks a private storage link. */
  const StorageHost := "r2.cloudflarestorage.com"
  /** The private storage bucket prefix a legacy link starts with. */
  const LegacyPrefix := Scheme + Account + "." + StorageHost + "/rana-website-media/"
  /** The retired public host and its URL prefix. */
  const OldPubHost := "pub-" + Account + ".r2.dev"
  const OldPubPrefix := Scheme + OldPubHost + "/"
  /** The current public CDN prefix. */
  const PubPrefix := Scheme + "pub-7c8b6de15604429f91020a1b08796bce.r2.dev/"

  /** `getImageUrl`: `None` for a missing, empty or blank URL; a link into
      storage has the first occurrence of the legacy prefix replaced (and is
      otherwise kept); failing that, a link on the retired host has the
      first occurrence of its prefix replaced; any other URL is returned as
      given. */
  function GetImageUrl(url: Option<string>): (r: Option<string>)
    ensures r.None? <==> url.None? || IsBlank(url.value)
    ensures r.Some? && Includes(url.value, StorageHost) ==>
      r.value == ReplaceFirst(url.value, LegacyPrefix, PubPrefix)
    ensures r.Some? && !Includes(url.value, StorageHost) && Includes(url.value, OldPubHost) ==>
      r.value == ReplaceFirst(url.value, OldPubPrefix, PubPrefix)
    ensures r.Some? && !Includes(url.value, StorageHost) && !Includes(url.value, OldPubHost) ==>
      r.value == url.value
  {
    if url.None? || url.value == "" || Trim(url.value) == "" then
      TrimEmptyIffBlank(if url.None? then "" else url.value);
      None
    else
      TrimEmptyIffBlank(url.value);
      var u := url.value;
      if Includes(u, StorageHost) then Some(ReplaceFirst(u, LegacyPrefix, PubPrefix))
      else if Includes(u, OldPubHost) then Some(ReplaceFirst(u, OldPubPrefix, PubPrefix))
      else Some(u)
  }

  /** A legacy storage link is moved onto the public CDN with its object
      path kept. */
  lemma LegacyLinkMoved(path: string)
    ensures GetImageUrl(Some(LegacyPrefix + path)) == Some(PubPrefix + path)
  {
    IncludesSuffix(Scheme + Account + ".", StorageHost);
    IncludesExtended(Scheme + Account + "." + StorageHost, StorageHost, "/rana-website-media/");
    IncludesExtended(LegacyPrefix, StorageHost, path);
    NotBlankAfter(LegacyPrefix, path);
    ReplaceLeadingPrefix(LegacyPrefix, path, PubPrefix);
  }

  /** A link on the retired public host is moved onto the current one with
      its object path kept, when it does not also name the storage host. */
  lemma OldPubLinkMoved(path: string)
    requires !Includes(OldPubPrefix + path, StorageHost)
    ensures GetImageUrl(Some(OldPubPrefix + path)) == Some(PubPrefix + path)
  {
    IncludesSuffix(Scheme, OldPubHost);
    IncludesExtended(Scheme + OldPubHost, OldPubHost, "/");
    IncludesExtended(OldPubPrefix, OldPubHost, path);
    NotBlankAfter(OldPubPrefix, path);
    ReplaceLeadingPrefix(OldPubPrefix, path, PubPrefix);
  }
}
