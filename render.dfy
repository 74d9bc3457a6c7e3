/** What HandleState (internal/bot/handlers.go:36-110) sends for a state: the
    premium-gated inline keyboard and, part by part, the pauses, photos and
    texts, as a sequence of directives. The store write that comes first is in
    module BotEngine. */
module Render {
  import opened Types
  import opened Templates

  /** The notice sent for an id that names no state. */
  const UnknownStateNotice := "Неизвестное состояние. Попробуйте снова."

  /** The pause after each photo of part 0 (300 ms), in seconds. */
  const PhotoGap: real := 0.3

  // ---------------------------------------------------------------- keyboard

  /** The inline keyboard, one button per row in button order: a button that
      requires premium leads to its fallback for a non-premium user and is
      dropped when the premium lookup fails. */
  function KeyboardFor(buttons: seq<Button>, check: PremiumCheck): Keyboard
    decreases |buttons|
  {
    if buttons == [] then []
    else
      var kb := KeyboardFor(buttons[..|buttons| - 1], check);
      var b := buttons[|buttons| - 1];
      if !b.requiresPremium then kb + [[KeyButton(b.text, b.nextState)]]
      else match check
        case CheckFailed => kb
        case Premium(p) => kb + [[KeyButton(b.text, if p then b.nextState else b.fallbackState)]]
  }

  /** The buttons that need no premium, in order. */
  function FreeButtons(buttons: seq<Button>): (r: seq<Button>)
    ensures forall i :: 0 <= i < |r| ==> !r[i].requiresPremium
    decreases |buttons|
  {
    if buttons == [] then []
    else
      var b := buttons[|buttons| - 1];
      FreeButtons(buttons[..|buttons| - 1]) + (if b.requiresPremium then [] else [b])
  }

  /** With a premium answer every button gets a row of its own, in order, with
      its label; a premium user always gets `nextState`, a non-premium user the
      fallback exactly on the buttons that require premium. */
  lemma {:induction false} KeyboardWhenChecked(buttons: seq<Button>, premium: bool)
    ensures |KeyboardFor(buttons, Premium(premium))| == |buttons|
    ensures forall i :: 0 <= i < |buttons| ==>
      KeyboardFor(buttons, Premium(premium))[i] ==
        [KeyButton(buttons[i].text,
                   if buttons[i].requiresPremium && !premium then buttons[i].fallbackState
                   else buttons[i].nextState)]
    ensures premium ==> forall i :: 0 <= i < |buttons| ==>
      KeyboardFor(buttons, Premium(premium))[i] == [KeyButton(buttons[i].text, buttons[i].nextState)]
    decreases |buttons|
  {
    if buttons != [] {
      var init := buttons[..|buttons| - 1];
      KeyboardWhenChecked(init, premium);
      forall i | 0 <= i < |init| ensures init[i] == buttons[i] { }
    }
  }

  /** When the premium lookup fails, the keyboard is that of the free buttons
      alone, in their original relative order, each leading to `nextState`. */
  lemma {:induction false} KeyboardWhenCheckFails(buttons: seq<Button>)
    ensures |KeyboardFor(buttons, CheckFailed)| == |FreeButtons(buttons)|
    ensures forall i :: 0 <= i < |FreeButtons(buttons)| ==>
      KeyboardFor(buttons, CheckFailed)[i] ==
        [KeyButton(FreeButtons(buttons)[i].text, FreeButtons(buttons)[i].nextState)]
    decreases |buttons|
  {
    if buttons != [] {
      KeyboardWhenCheckFails(buttons[..|buttons| - 1]);
    }
  }

  /** Every free button survives into FreeButtons and every premium one is gone. */
  lemma {:induction false} FreeButtonsMembership(buttons: seq<Button>, b: Button)
    ensures b in FreeButtons(buttons) <==> b in buttons && !b.requiresPremium
    decreases |buttons|
  {
    if buttons != [] {
      var init := buttons[..|buttons| - 1];
      FreeButtonsMembership(init, b);
      assert buttons == init + [buttons[|buttons| - 1]];
    }
  }

  /** The keyboard loop of HandleState. */
  method BuildKeyboard(buttons: seq<Button>, check: PremiumCheck) returns (kb: Keyboard)
    ensures kb == KeyboardFor(buttons, check)
  {
    kb := [];
    var i := 0;
    while i < |buttons|
      invariant 0 <= i <= |buttons|
      invariant kb == KeyboardFor(buttons[..i], check)
    {
      var b := buttons[i];
      assert buttons[..i + 1][..i] == buttons[..i];
      var target := b.nextState;
      if b.requiresPremium {
        if check.CheckFailed? {
          i := i + 1;
          continue;
        }
        if !check.isPremium {
          target := b.fallbackState;
        }
      }
      kb := kb + [[KeyButton(b.text, target)]];
      i := i + 1;
    }
    assert buttons[..i] == buttons;
  }

  // ---------------------------------------------------------------- parts

  /** The markup attached to the last part: the keyboard when it has a row. */
  function Markup(kb: Keyboard): Option<Keyboard> {
    if |kb| > 0 then Some(kb) else None
  }

  /** The image paths that exist on disk, in order. */
  function Existing(images: seq<string>, files: set<string>): seq<string>
    decreases |images|
  {
    if images == [] then []
    else
      var path := images[|images| - 1];
      Existing(images[..|images| - 1], files) + (if path in files then [path] else [])
  }

  /** Part 0 with images: a captioned photo, then the pacing gap, per existing image. */
  function PhotosFor(images: seq<string>, caption: string, markup: Option<Keyboard>, files: set<string>): seq<Directive>
    decreases |images|
  {
    if images == [] then []
    else
      var path := images[|images| - 1];
      PhotosFor(images[..|images| - 1], caption, markup, files)
        + (if path in files then [Photo(path, caption, markup), Delay(PhotoGap)] else [])
  }

  /** The markup of part i's messages: the keyboard on the last part only. */
  function PartMarkup(s: State, i: nat, kb: Keyboard): Option<Keyboard> {
    if i == |s.message| - 1 then Markup(kb) else None
  }

  /** The pause before part i: the previous part's sleep, when positive. */
  function Pause(s: State, i: nat): seq<Directive>
    requires i < |s.message|
  {
    if i > 0 && s.message[i - 1].sleep > 0.0 then [Delay(s.message[i - 1].sleep)] else []
  }

  /** The messages of part i, whose expanded text is `text`. */
  function Body(s: State, i: nat, text: string, kb: Keyboard, files: set<string>): seq<Directive>
    requires i < |s.message|
  {
    if i == 0 && |s.images| > 0 then PhotosFor(s.images, text, PartMarkup(s, i, kb), files)
    else [Text(text, PartMarkup(s, i, kb))]
  }

  /** The directives of part i. */
  function Part(s: State, i: nat, text: string, kb: Keyboard, files: set<string>): seq<Directive>
    requires i < |s.message|
  {
    Pause(s, i) + Body(s, i, text, kb, files)
  }

  /** The directives of parts 0..k-1, in order. */
  function Emitted(s: State, k: nat, texts: seq<string>, kb: Keyboard, files: set<string>): seq<Directive>
    requires k <= |s.message| == |texts|
  {
    if k == 0 then []
    else Emitted(s, k - 1, texts, kb, files) + Part(s, k - 1, texts[k - 1], kb, files)
  }

  /** Everything HandleState sends for `id`. */
  function Rendered(states: map<string, State>, ud: map<ChatId, Attributes>, chat: ChatId, id: string,
                  check: PremiumCheck, files: set<string>): (r: seq<Directive>)
    ensures id !in states ==> r == [Text(UnknownStateNotice, None)]
    ensures id in states ==>
      var s := states[id]; var texts := Expanded(s, ud, chat);
      var withPhotos := |s.message| > 0 && |s.images| > 0;
      && Project(r, TextOf) == (if withPhotos then texts[1..] else texts)
      && Project(r, PhotoPathOf) == (if withPhotos then Existing(s.images, files) else [])
  {
    if id !in states then [Text(UnknownStateNotice, None)]
    else
      var s := states[id];
      var texts := Expanded(s, ud, chat);
      var kb := KeyboardFor(s.buttons, check);
      EmittedTexts(s, |s.message|, texts, kb, files);
      EmittedPhotos(s, |s.message|, texts, kb, files);
      assert texts[..|s.message|] == texts;
      Emitted(s, |s.message|, texts, kb, files)
  }

  /** The photo loop of part 0. */
  method SendPhotos(images: seq<string>, caption: string, markup: Option<Keyboard>, files: set<string>)
    returns (ds: seq<Directive>)
    ensures ds == PhotosFor(images, caption, markup, files)
  {
    ds := [];
    var i := 0;
    while i < |images|
      invariant 0 <= i <= |images|
      invariant ds == PhotosFor(images[..i], caption, markup, files)
    {
      assert images[..i + 1][..i] == images[..i];
      if images[i] in files {
        ds := ds + [Photo(images[i], caption, markup), Delay(PhotoGap)];
      }
      i := i + 1;
    }
    assert images[..i] == images;
  }

  /** The message-part loop of HandleState. */
  method EmitParts(s: State, kb: Keyboard, ud: map<ChatId, Attributes>, chat: ChatId, files: set<string>)
    returns (out: seq<Directive>)
    ensures out == Emitted(s, |s.message|, Expanded(s, ud, chat), kb, files)
  {
    out := [];
    var i := 0;
    while i < |s.message|
      invariant 0 <= i <= |s.message|
      invariant out == Emitted(s, i, Expanded(s, ud, chat), kb, files)
    {
      var pause: seq<Directive> := [];
      if i > 0 && s.message[i - 1].sleep > 0.0 {
        pause := [Delay(s.message[i - 1].sleep)];
      }
      var text := ReplaceTemplates(s.message[i].text, ud, chat);
      assert text == Expanded(s, ud, chat)[i];
      var markup: Option<Keyboard> := None;
      if i == |s.message| - 1 && |kb| > 0 {
        markup := Some(kb);
      }
      var body: seq<Directive>;
      if i == 0 && |s.images| > 0 {
        body := SendPhotos(s.images, text, markup, files);
      } else {
        body := [Text(text, markup)];
      }
      assert pause == Pause(s, i) && body == Body(s, i, text, kb, files);
      out := out + (pause + body);
      i := i + 1;
    }
  }

  // ---------------------------------------------------------------- views of the output

  function TextOf(d: Directive): seq<string> {
    if d.Text? then [d.text] else []
  }

  function PhotoPathOf(d: Directive): seq<string> {
    if d.Photo? then [d.path] else []
  }

  function DelayOf(d: Directive): seq<real> {
    if d.Delay? then [d.seconds] else []
  }

  /** The concatenation of f over the directives, in order. */
  function Project<T>(ds: seq<Directive>, f: Directive -> seq<T>): seq<T>
    decreases |ds|
  {
    if ds == [] then [] else f(ds[0]) + Project(ds[1..], f)
  }

  lemma {:induction false} ProjectAppend<T>(a: seq<Directive>, b: seq<Directive>, f: Directive -> seq<T>)
    ensures Project(a + b, f) == Project(a, f) + Project(b, f)
    decreases |a|
  {
    if a != [] {
      assert (a + b)[0] == a[0];
      assert (a + b)[1..] == a[1..] + b;
      ProjectAppend(a[1..], b, f);
    } else {
      assert a + b == b;
    }
  }

  lemma ProjectOne<T>(d: Directive, f: Directive -> seq<T>)
    ensures Project([d], f) == f(d)
  {
    assert [d][1..] == [];
  }

  /** The markup a directive carries (a pause carries none). */
  function MarkupOf(d: Directive): Option<Keyboard> {
    if d.Delay? then None else d.markup
  }

  /** The expanded texts of all parts, in order. */
  function Expanded(s: State, ud: map<ChatId, Attributes>, chat: ChatId): (r: seq<string>)
    ensures |r| == |s.message|
  {
    seq(|s.message|, i requires 0 <= i < |s.message| => ExpandFor(s.message[i].text, ud, chat))
  }

  /** The pauses of positive length among the given parts, in order. */
  function PositiveSleeps(parts: seq<MessagePart>): seq<real>
    decreases |parts|
  {
    if parts == [] then []
    else
      var p := parts[|parts| - 1];
      PositiveSleeps(parts[..|parts| - 1]) + (if p.sleep > 0.0 then [p.sleep] else [])
  }

  function Gaps(n: nat): (r: seq<real>)
    ensures |r| == n && forall i :: 0 <= i < n ==> r[i] == PhotoGap
  {
    seq(n, i => PhotoGap)
  }

  /** The photo directives of part 0: one per existing image, each followed by
      the gap and each with the caption and markup. */
  lemma PhotosForViews(images: seq<string>, caption: string, markup: Option<Keyboard>, files: set<string>)
    ensures Project(PhotosFor(images, caption, markup, files), TextOf) == []
    ensures Project(PhotosFor(images, caption, markup, files), PhotoPathOf) == Existing(images, files)
    ensures Project(PhotosFor(images, caption, markup, files), DelayOf) == Gaps(|Existing(images, files)|)
    ensures forall j :: 0 <= j < |PhotosFor(images, caption, markup, files)| ==>
      var d := PhotosFor(images, caption, markup, files)[j];
      d == Delay(PhotoGap) || (d.Photo? && d.caption == caption && d.markup == markup)
    ensures |PhotosFor(images, caption, markup, files)| > 0 ==> PhotosFor(images, caption, markup, files)[0].Photo?
  {
    PhotosForProjections(images, caption, markup, files);
    PhotosForShape(images, caption, markup, files);
  }

  /** The views of one photo and its gap. */
  lemma PhotoPairViews(path: string, caption: string, markup: Option<Keyboard>)
    ensures var pair := [Photo(path, caption, markup), Delay(PhotoGap)];
      && Project(pair, TextOf) == []
      && Project(pair, PhotoPathOf) == [path]
      && Project(pair, DelayOf) == [PhotoGap]
  {
    var photo := Photo(path, caption, markup);
    assert [photo, Delay(PhotoGap)] == [photo] + [Delay(PhotoGap)];
    ProjectAppend([photo], [Delay(PhotoGap)], TextOf);
    ProjectAppend([photo], [Delay(PhotoGap)], PhotoPathOf);
    ProjectAppend([photo], [Delay(PhotoGap)], DelayOf);
    ProjectOne(photo, TextOf);
    ProjectOne(photo, PhotoPathOf);
    ProjectOne(photo, DelayOf);
    ProjectOne(Delay(PhotoGap), TextOf);
    ProjectOne(Delay(PhotoGap), PhotoPathOf);
    ProjectOne(Delay(PhotoGap), DelayOf);
  }

  lemma {:induction false} PhotosForProjections(images: seq<string>, caption: string, markup: Option<Keyboard>, files: set<string>)
    ensures Project(PhotosFor(images, caption, markup, files), TextOf) == []
    ensures Project(PhotosFor(images, caption, markup, files), PhotoPathOf) == Existing(images, files)
    ensures Project(PhotosFor(images, caption, markup, files), DelayOf) == Gaps(|Existing(images, files)|)
    decreases |images|
  {
    if images != [] {
      var init := images[..|images| - 1];
      var path := images[|images| - 1];
      PhotosForProjections(init, caption, markup, files);
      var ds := PhotosFor(init, caption, markup, files);
      if path in files {
        var pair := [Photo(path, caption, markup), Delay(PhotoGap)];
        ProjectAppend(ds, pair, TextOf);
        ProjectAppend(ds, pair, PhotoPathOf);
        ProjectAppend(ds, pair, DelayOf);
        PhotoPairViews(path, caption, markup);
        assert Gaps(|Existing(init, files)|) + [PhotoGap] == Gaps(|Existing(images, files)|);
      } else {
        assert ds + [] == ds;
      }
    }
  }

  lemma {:induction false} PhotosForShape(images: seq<string>, caption: string, markup: Option<Keyboard>, files: set<string>)
    ensures forall j :: 0 <= j < |PhotosFor(images, caption, markup, files)| ==>
      var d := PhotosFor(images, caption, markup, files)[j];
      d == Delay(PhotoGap) || (d.Photo? && d.caption == caption && d.markup == markup)
    ensures |PhotosFor(images, caption, markup, files)| > 0 ==> PhotosFor(images, caption, markup, files)[0].Photo?
    decreases |images|
  {
    if images != [] {
      var init := images[..|images| - 1];
      PhotosForShape(init, caption, markup, files);
    }
  }

  lemma PauseViews(s: State, i: nat)
    requires i < |s.message|
    ensures Project(Pause(s, i), TextOf) == [] && Project(Pause(s, i), PhotoPathOf) == []
    ensures Project(Pause(s, i), DelayOf) == (if i > 0 && s.message[i - 1].sleep > 0.0 then [s.message[i - 1].sleep] else [])
  {
    if Pause(s, i) != [] {
      ProjectOne(Pause(s, i)[0], TextOf);
      ProjectOne(Pause(s, i)[0], PhotoPathOf);
      ProjectOne(Pause(s, i)[0], DelayOf);
    }
  }

  /** Part i sends its text, unless it is part 0 of a state with images, which
      sends the existing images captioned with that text instead. */
  lemma PartTexts(s: State, i: nat, text: string, kb: Keyboard, files: set<string>)
    requires i < |s.message|
    ensures Project(Part(s, i, text, kb, files), TextOf) == (if i == 0 && |s.images| > 0 then [] else [text])
    ensures Project(Part(s, i, text, kb, files), PhotoPathOf) == (if i == 0 && |s.images| > 0 then Existing(s.images, files) else [])
  {
    var body := Body(s, i, text, kb, files);
    PauseViews(s, i);
    ProjectAppend(Pause(s, i), body, TextOf);
    ProjectAppend(Pause(s, i), body, PhotoPathOf);
    if i == 0 && |s.images| > 0 {
      PhotosForViews(s.images, text, PartMarkup(s, i, kb), files);
    } else {
      ProjectOne(body[0], TextOf);
      ProjectOne(body[0], PhotoPathOf);
    }
  }

  /** Part i's pauses: the previous part's positive sleep, then, for part 0 with
      images, one gap per photo. */
  lemma PartDelays(s: State, i: nat, text: string, kb: Keyboard, files: set<string>)
    requires i < |s.message|
    ensures Project(Part(s, i, text, kb, files), DelayOf) ==
      (if i > 0 && s.message[i - 1].sleep > 0.0 then [s.message[i - 1].sleep] else [])
      + (if i == 0 && |s.images| > 0 then Gaps(|Existing(s.images, files)|) else [])
  {
    var body := Body(s, i, text, kb, files);
    PauseViews(s, i);
    ProjectAppend(Pause(s, i), body, DelayOf);
    if i == 0 && |s.images| > 0 {
      PhotosForViews(s.images, text, PartMarkup(s, i, kb), files);
    } else {
      ProjectOne(body[0], DelayOf);
    }
  }

  /** Every message of part i carries PartMarkup and every photo the part's text. */
  lemma PartMarkupAndCaptions(s: State, i: nat, text: string, kb: Keyboard, files: set<string>)
    requires i < |s.message|
    ensures var p := Part(s, i, text, kb, files);
      && (forall j :: 0 <= j < |p| && p[j].Photo? ==> p[j].caption == text)
      && (forall j :: 0 <= j < |p| ==> p[j].Delay? || MarkupOf(p[j]) == PartMarkup(s, i, kb))
      && (i > 0 ==> forall j :: 0 <= j < |p| ==> !p[j].Photo?)
  {
    var pause := Pause(s, i);
    var body := Body(s, i, text, kb, files);
    if i == 0 && |s.images| > 0 {
      PhotosForViews(s.images, text, PartMarkup(s, i, kb), files);
    }
    forall j | |pause| <= j < |pause + body| ensures (pause + body)[j] == body[j - |pause|] { }
  }

  /** How part i begins: part 0 with a message (never a pause); part i > 0 with
      a pause exactly when the previous part's sleep is positive, else with its text. */
  lemma PartHead(s: State, i: nat, text: string, kb: Keyboard, files: set<string>)
    requires i < |s.message|
    ensures var p := Part(s, i, text, kb, files);
      && (i == 0 && |p| > 0 ==> p[0].Photo? || p[0].Text?)
      && (i > 0 ==>
            && |p| > 0
            && (p[0] == Delay(s.message[i - 1].sleep) <==> s.message[i - 1].sleep > 0.0)
            && (s.message[i - 1].sleep <= 0.0 ==> p[0].Text?))
  {
    if i == 0 && |s.images| > 0 {
      PhotosForViews(s.images, text, PartMarkup(s, i, kb), files);
      assert Part(s, i, text, kb, files) == PhotosFor(s.images, text, PartMarkup(s, i, kb), files);
    }
  }

  /** The texts sent are the expanded texts of the parts in order, except part 0
      when the state has images (it goes out as photo captions instead). */
  lemma {:induction false} EmittedTexts(s: State, k: nat, texts: seq<string>, kb: Keyboard, files: set<string>)
    requires k <= |s.message| == |texts|
    ensures Project(Emitted(s, k, texts, kb, files), TextOf) ==
      if k > 0 && |s.images| > 0 then texts[1..k] else texts[..k]
    decreases k
  {
    if k > 0 {
      var i := k - 1;
      var text := texts[i];
      var e := texts;
      var prev := Emitted(s, i, texts, kb, files);
      var p := Part(s, i, text, kb, files);
      assert Emitted(s, k, texts, kb, files) == prev + p;
      assert Project(prev + p, TextOf) == Project(prev, TextOf) + Project(p, TextOf) by {
        ProjectAppend(prev, p, TextOf);
      }
      assert Project(prev, TextOf) == if i > 0 && |s.images| > 0 then e[1..i] else e[..i] by {
        EmittedTexts(s, i, texts, kb, files);
      }
      assert Project(p, TextOf) == if i == 0 && |s.images| > 0 then [] else [e[i]] by {
        PartTexts(s, i, text, kb, files);
      }
      if |s.images| > 0 {
        if i > 0 {
          assert e[1..k] == e[1..i] + [e[i]];
        }
      } else {
        assert e[..k] == e[..i] + [e[i]];
      }
    }
  }

  /** The photos sent are the existing images, in order, all from part 0, each
      captioned with part 0's expanded text. */
  lemma EmittedPhotos(s: State, k: nat, texts: seq<string>, kb: Keyboard, files: set<string>)
    requires k <= |s.message| == |texts|
    ensures Project(Emitted(s, k, texts, kb, files), PhotoPathOf) ==
      if k > 0 && |s.images| > 0 then Existing(s.images, files) else []
    ensures k > 0 ==> Captioned(Emitted(s, k, texts, kb, files), texts[0])
  {
    EmittedPhotoPaths(s, k, texts, kb, files);
    if k > 0 {
      EmittedCaptions(s, k, texts, kb, files);
    }
  }

  lemma {:induction false} EmittedPhotoPaths(s: State, k: nat, texts: seq<string>, kb: Keyboard, files: set<string>)
    requires k <= |s.message| == |texts|
    ensures Project(Emitted(s, k, texts, kb, files), PhotoPathOf) ==
      if k > 0 && |s.images| > 0 then Existing(s.images, files) else []
    decreases k
  {
    if k > 0 {
      var i := k - 1;
      var prev := Emitted(s, i, texts, kb, files);
      var p := Part(s, i, texts[i], kb, files);
      assert Emitted(s, k, texts, kb, files) == prev + p;
      EmittedPhotoPaths(s, i, texts, kb, files);
      ProjectAppend(prev, p, PhotoPathOf);
      PartTexts(s, i, texts[i], kb, files);
    }
  }

  lemma {:induction false} EmittedCaptions(s: State, k: nat, texts: seq<string>, kb: Keyboard, files: set<string>)
    requires 0 < k <= |s.message| == |texts|
    ensures Captioned(Emitted(s, k, texts, kb, files), texts[0])
    decreases k
  {
    var i := k - 1;
    var prev := Emitted(s, i, texts, kb, files);
    var p := Part(s, i, texts[i], kb, files);
    assert Emitted(s, k, texts, kb, files) == prev + p;
    if i == 0 {
      assert prev == [];
    } else {
      EmittedCaptions(s, i, texts, kb, files);
    }
    PartCaptions(s, i, texts[i], kb, files);
    assert Captioned(p, texts[0]);
    CaptionedAppend(prev, p, texts[0]);
  }

  /** Every photo among `ds` carries `caption`. */
  predicate Captioned(ds: seq<Directive>, caption: string) {
    forall j :: 0 <= j < |ds| && ds[j].Photo? ==> ds[j].caption == caption
  }

  lemma PartCaptions(s: State, i: nat, text: string, kb: Keyboard, files: set<string>)
    requires i < |s.message|
    ensures Captioned(Part(s, i, text, kb, files), text)
    ensures i > 0 ==> Captioned(Part(s, i, text, kb, files), s.message[0].text)
  {
    PartMarkupAndCaptions(s, i, text, kb, files);
  }

  lemma CaptionedAppend(a: seq<Directive>, b: seq<Directive>, caption: string)
    requires Captioned(a, caption) && Captioned(b, caption)
    ensures Captioned(a + b, caption)
  {
    forall j | 0 <= j < |a + b| && (a + b)[j].Photo?
      ensures (a + b)[j].caption == caption
    {
      if j >= |a| {
        assert (a + b)[j] == b[j - |a|];
      }
    }
  }

  /** The pauses sent are the photo gaps of part 0 followed by, in order, the
      sleep of each part but the last whose sleep is positive. */
  lemma {:induction false} EmittedDelays(s: State, k: nat, texts: seq<string>, kb: Keyboard, files: set<string>)
    requires 0 < k <= |s.message| == |texts|
    ensures Project(Emitted(s, k, texts, kb, files), DelayOf) ==
      (if |s.images| > 0 then Gaps(|Existing(s.images, files)|) else []) + PositiveSleeps(s.message[..k - 1])
    decreases k
  {
    var i := k - 1;
    var prev := Emitted(s, i, texts, kb, files);
    var p := Part(s, i, texts[i], kb, files);
    var gaps := if |s.images| > 0 then Gaps(|Existing(s.images, files)|) else [];
    assert Emitted(s, k, texts, kb, files) == prev + p;
    ProjectAppend(prev, p, DelayOf);
    PartDelays(s, i, texts[i], kb, files);
    if i == 0 {
      assert prev == [] && s.message[..0] == [];
    } else {
      EmittedDelays(s, i, texts, kb, files);
      SleepsStep(s.message, i, gaps);
    }
  }

  /** One more part adds its pause, if positive, after the earlier ones. */
  lemma SleepsStep(parts: seq<MessagePart>, i: nat, gaps: seq<real>)
    requires 0 < i <= |parts|
    ensures var m := parts[i - 1];
      gaps + PositiveSleeps(parts[..i]) ==
        gaps + PositiveSleeps(parts[..i - 1]) + (if m.sleep > 0.0 then [m.sleep] else [])
  {
    assert parts[..i][..i - 1] == parts[..i - 1];
  }

  /** The directives of every part but the last carry no markup; each message
      of the last part carries the keyboard exactly when it is non-empty. */
  lemma {:induction false} EmittedMarkup(s: State, k: nat, texts: seq<string>, kb: Keyboard, files: set<string>)
    requires k <= |s.message| == |texts|
    ensures k < |s.message| ==> forall j :: 0 <= j < |Emitted(s, k, texts, kb, files)| ==>
      MarkupOf(Emitted(s, k, texts, kb, files)[j]) == None
    ensures k == |s.message| > 0 ==> forall j :: 0 <= j < |Emitted(s, k, texts, kb, files)| ==>
      var d := Emitted(s, k, texts, kb, files)[j];
      if j < |Emitted(s, k - 1, texts, kb, files)| then MarkupOf(d) == None
      else d.Delay? || MarkupOf(d) == Markup(kb)
    decreases k
  {
    if k > 0 {
      var i := k - 1;
      var text := texts[i];
      var prev := Emitted(s, i, texts, kb, files);
      var p := Part(s, i, text, kb, files);
      EmittedMarkup(s, i, texts, kb, files);
      PartMarkupAndCaptions(s, i, text, kb, files);
      assert Emitted(s, k, texts, kb, files) == prev + p;
      forall j | |prev| <= j < |prev + p| ensures (prev + p)[j] == p[j - |prev|] { }
    }
  }

  /** Unless part 0 is the only part and goes out as photos, the last directive
      of a non-empty message is the last part's text with the keyboard. */
  lemma LastDirective(s: State, texts: seq<string>, kb: Keyboard, files: set<string>)
    requires |s.message| == |texts| > 0 && !(|s.message| == 1 && |s.images| > 0)
    ensures var out := Emitted(s, |s.message|, texts, kb, files);
      |out| > 0 && out[|out| - 1] == Text(texts[|s.message| - 1], Markup(kb))
  {
  }

  /** Emitting more parts only extends the output. */
  lemma {:induction false} EmittedPrefix(s: State, j: nat, k: nat, texts: seq<string>, kb: Keyboard, files: set<string>)
    requires j <= k <= |s.message| == |texts|
    ensures |Emitted(s, j, texts, kb, files)| <= |Emitted(s, k, texts, kb, files)|
    ensures Emitted(s, k, texts, kb, files)[..|Emitted(s, j, texts, kb, files)|] == Emitted(s, j, texts, kb, files)
    decreases k - j
  {
    if j < k {
      EmittedPrefix(s, j, k - 1, texts, kb, files);
    }
  }

  /** No pause precedes part 0; part i > 0 starts, right after the directives
      of parts 0..i-1, with a pause of the previous part's sleep exactly when
      that sleep is positive, and otherwise with its text. */
  lemma PauseBeforePart(s: State, i: nat, texts: seq<string>, kb: Keyboard, files: set<string>)
    requires i < |s.message| == |texts|
    ensures var out := Emitted(s, |s.message|, texts, kb, files);
      var at := |Emitted(s, i, texts, kb, files)|;
      && at <= |out|
      && out[..at] == Emitted(s, i, texts, kb, files)
      && (i == 0 ==> at == 0 && (|out| > 0 && |Emitted(s, 1, texts, kb, files)| > 0 ==> out[0].Photo? || out[0].Text?))
      && (i > 0 ==>
            && at < |out|
            && (out[at] == Delay(s.message[i - 1].sleep) <==> s.message[i - 1].sleep > 0.0)
            && (s.message[i - 1].sleep <= 0.0 ==> out[at].Text?))
  {
    var out := Emitted(s, |s.message|, texts, kb, files);
    var prev := Emitted(s, i, texts, kb, files);
    var text := texts[i];
    var p := Part(s, i, text, kb, files);
    EmittedPrefix(s, i, |s.message|, texts, kb, files);
    EmittedPrefix(s, i + 1, |s.message|, texts, kb, files);
    PartHead(s, i, text, kb, files);
    var next := Emitted(s, i + 1, texts, kb, files);
    assert next == prev + p;
    if |p| > 0 {
      assert out[|prev|] == next[|prev|] == p[0];
    }
  }
}
