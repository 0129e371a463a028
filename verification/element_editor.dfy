/**
  The inline editor of one section element
  (src/components/admin/ElementEditor.tsx): form fields initialised from the
  element, the update request `handleSave` builds for the element's type,
  cancelling, and picking a file from the media library.
*/
module ElementEditor {
  import opened Wrappers
  import opened Js
  import opened Types

  /** `v || null`: an empty URL counts as none. */
  function UrlOrNull(v: Option<string>): (r: Option<string>)
    ensures r.Some? <==> v.Some? && v.value != ""
    ensures r.Some? ==> r == v
  {
    if v == Some("") then None else v
  }

  /** The JSON value sent for the selected media URL. */
  function UrlJson(v: Option<string>): (r: JsValue)
    ensures v.None? ==> r == Null
    ensures v.Some? ==> r == Str(v.value)
  {
    if v.Some? then Str(v.value) else Null
  }

  predicate IsTextual(kind: Option<string>) {
    kind == Some("text") || kind == Some("quote")
  }

  predicate IsMedia(kind: Option<string>) {
    kind == Some("image") || kind == Some("video")
  }

  /** The update request for an element of type `kind`: text and quote send
      the content, embed sends the URL, image and video send the media
      fields, and any other type sends nothing. */
  function SavePayload(kind: Option<string>, content: string, embedUrl: string, altText: string,
                       caption: string, media: Option<string>): (u: map<string, JsValue>)
    ensures IsTextual(kind) ==> u == map["content" := Str(content)]
    ensures kind == Some("embed") ==> u == map["embed_url" := Str(embedUrl)]
    ensures IsMedia(kind) ==>
      u == map["media_url" := UrlJson(media), "alt_text" := Str(altText), "caption" := Str(caption)]
    ensures !IsTextual(kind) && kind != Some("embed") && !IsMedia(kind) ==> u == map[]
  {
    if IsTextual(kind) then map["content" := Str(content)]
    else if kind == Some("embed") then map["embed_url" := Str(embedUrl)]
    else if IsMedia(kind) then
      map["media_url" := UrlJson(media), "alt_text" := Str(altText), "caption" := Str(caption)]
    else map[]
  }

  /** At most one group of fields is ever sent: the request never mixes the
      content, the embed URL and the media fields. */
  lemma PayloadKeysDisjoint(kind: Option<string>, content: string, embedUrl: string, altText: string,
                            caption: string, media: Option<string>)
    ensures var keys := SavePayload(kind, content, embedUrl, altText, caption, media).Keys;
      && ("content" in keys ==> keys == {"content"})
      && ("embed_url" in keys ==> keys == {"embed_url"})
      && ("media_url" in keys <==> IsMedia(kind))
      && (keys == {} <==> !IsTextual(kind) && kind != Some("embed") && !IsMedia(kind))
  {
    var u := SavePayload(kind, content, embedUrl, altText, caption, media);
    if IsTextual(kind) {
      assert u.Keys == {"content"};
    } else if kind == Some("embed") {
      assert u.Keys == {"embed_url"};
    } else if IsMedia(kind) {
      assert "media_url" in u.Keys;
      assert u.Keys == {"media_url", "alt_text", "caption"};
    }
  }

  /** The editor's state for one element. `element` is the prop the editor
      was rendered with: after a successful save the parent replaces the
      element in its list and renders this editor again with the saved
      element. */
  class Editor {
    var element: Element
    var isEditing: bool
    var loading: bool
    var content: string
    var embedUrl: string
    var altText: string
    var caption: string
    var selectedMediaUrl: Option<string>
    var showMediaLibrary: bool

    /** The form starts from the element's values. */
    predicate FormMatchesElement()
      reads this
    {
      && content == TextOrEmpty(element.content)
      && embedUrl == TextOrEmpty(element.embed_url)
      && altText == TextOrEmpty(element.alt_text)
      && caption == TextOrEmpty(element.caption)
      && selectedMediaUrl == UrlOrNull(element.media_url)
    }

    constructor (e: Element)
      ensures element == e && FormMatchesElement()
      ensures !isEditing && !loading && !showMediaLibrary
    {
      element := e;
      isEditing := false;
      loading := false;
      content := TextOrEmpty(e.content);
      embedUrl := TextOrEmpty(e.embed_url);
      altText := TextOrEmpty(e.alt_text);
      caption := TextOrEmpty(e.caption);
      selectedMediaUrl := UrlOrNull(e.media_url);
      showMediaLibrary := false;
    }

    /** `handleSave`: the request is built field by field from the form;
        `updated` is the server's answer (`None` when the call failed). On
        success `onUpdate` hands the answer to the parent, whose re-render
        makes it this editor's element, and the editor leaves edit mode;
        the form is kept either way. */
    method HandleSave(updated: Option<Element>) returns (updateData: map<string, JsValue>)
      modifies this
      ensures updateData == SavePayload(old(element).kind, content, embedUrl, altText, caption, selectedMediaUrl)
      ensures updated.Some? ==> element == updated.value
      ensures updated.None? ==> element == old(element)
      ensures updated.Some? ==> !isEditing
      ensures updated.None? ==> isEditing == old(isEditing)
      ensures !loading
      ensures content == old(content) && embedUrl == old(embedUrl) && altText == old(altText)
      ensures caption == old(caption) && selectedMediaUrl == old(selectedMediaUrl)
      ensures showMediaLibrary == old(showMediaLibrary)
    {
      loading := true;
      updateData := map[];
      if element.kind == Some("text") || element.kind == Some("quote") {
        updateData := updateData["content" := Str(content)];
      }
      if element.kind == Some("embed") {
        updateData := updateData["embed_url" := Str(embedUrl)];
      }
      if element.kind == Some("image") || element.kind == Some("video") {
        updateData := updateData["media_url" := UrlJson(selectedMediaUrl)];
        updateData := updateData["alt_text" := Str(altText)];
        updateData := updateData["caption" := Str(caption)];
      }
      if updated.Some? {
        element := updated.value;
        isEditing := false;
      }
      loading := false;
    }

    /** `handleCancel`: the form goes back to the element's values and edit
        mode ends. */
    method HandleCancel()
      modifies this
      ensures FormMatchesElement() && !isEditing
      ensures element == old(element)
      ensures loading == old(loading) && showMediaLibrary == old(showMediaLibrary)
    {
      content := TextOrEmpty(element.content);
      embedUrl := TextOrEmpty(element.embed_url);
      altText := TextOrEmpty(element.alt_text);
      caption := TextOrEmpty(element.caption);
      selectedMediaUrl := UrlOrNull(element.media_url);
      isEditing := false;
    }

    /** `handleMediaSelect`: the chosen URL becomes the selection and the
        library closes; the rest of the form is untouched. */
    method HandleMediaSelect(url: string)
      modifies this
      ensures selectedMediaUrl == Some(url) && !showMediaLibrary
      ensures element == old(element)
      ensures content == old(content) && embedUrl == old(embedUrl) && altText == old(altText)
      ensures caption == old(caption) && isEditing == old(isEditing) && loading == old(loading)
    {
      selectedMediaUrl := Some(url);
      showMediaLibrary := false;
    }
  }
}
