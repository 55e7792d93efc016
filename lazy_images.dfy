/**
 * Lazy loading of the card images: each image starts with its placeholder
 * `src` and its real source in `data-src`; the real source is assigned when
 * the image comes near the viewport (or at once when the runtime has no
 * intersection observer), and the pending marker and the placeholder class
 * are removed only once the browser reports that the image has loaded.
 */
module LazyImages {
  import opened Wrappers
  import Catalogue

  /** One `<img>` element, reduced to what the loader reads and writes. */
  class Image {
    var src: string
    /** The `data-src` attribute: the pending full-resolution source. */
    var dataSrc: Option<string>
    /** Whether the element carries the class "lazy-img". */
    var lazy: bool
    /** Whether the intersection observer watches the element. */
    var observed: bool
    /** Whether the one-shot load handler is attached. */
    var loadHandler: bool

    /** The image of a freshly rendered card. */
    constructor FromCard(c: Catalogue.Card)
      ensures src == c.src && dataSrc == Some(c.dataSrc) && lazy
      ensures !observed && !loadHandler
    {
      src := c.src;
      dataSrc := Some(c.dataSrc);
      lazy := true;
      observed := false;
      loadHandler := false;
    }

    /** Matches the selector `img.lazy-img[data-src]`. */
    predicate Selected()
      reads this
    {
      lazy && dataSrc.Some?
    }

    /** `img.dataset.src` is truthy: there is a real source to load. */
    predicate HasPendingSource()
      reads this
    {
      dataSrc.Some? && dataSrc.value != ""
    }

    /** `io.observe(img)` */
    method Observe()
      modifies this
      ensures observed
      ensures src == old(src) && dataSrc == old(dataSrc) && lazy == old(lazy)
      ensures loadHandler == old(loadHandler)
    {
      observed := true;
    }

    /** Attaches the load handler, then assigns the real source; images
        without a real source are left alone. */
    method StartLoad()
      modifies this
      ensures old(HasPendingSource()) ==> src == old(dataSrc.value) && loadHandler
      ensures !old(HasPendingSource()) ==> src == old(src) && loadHandler == old(loadHandler)
      ensures dataSrc == old(dataSrc) && lazy == old(lazy) && observed == old(observed)
    {
      if dataSrc.None? || dataSrc.value == "" {
        return;
      }
      var source := dataSrc.value;
      loadHandler := true;
      src := source;
    }

    /** The observer callback for this image's entry: an intersecting entry
        starts the load (when there is a real source) and is unobserved, so
        it never triggers again; a non-intersecting entry changes nothing. */
    method Intersect(isIntersecting: bool)
      modifies this
      ensures isIntersecting ==> !observed
      ensures isIntersecting && old(HasPendingSource()) ==> src == old(dataSrc.value) && loadHandler
      ensures !(isIntersecting && old(HasPendingSource())) ==>
                src == old(src) && loadHandler == old(loadHandler)
      ensures !isIntersecting ==> observed == old(observed)
      ensures dataSrc == old(dataSrc) && lazy == old(lazy)
    {
      if isIntersecting {
        StartLoad();
        observed := false;
      }
    }

    /** The browser's load event.  The attached handler removes `data-src`
        and the class "lazy-img", then detaches itself. */
    method Loaded()
      modifies this
      ensures old(loadHandler) ==> dataSrc == None && !lazy && !loadHandler
      ensures !old(loadHandler) ==>
                dataSrc == old(dataSrc) && lazy == old(lazy) && loadHandler == old(loadHandler)
      ensures src == old(src) && observed == old(observed)
      ensures !Selected() || !old(loadHandler)
    {
      if loadHandler {
        dataSrc := None;
        lazy := false;
        loadHandler := false;
      }
    }
  }

  /** `lazyLoadInit()` over the images of the page.  With an observer every
      selected image is handed to it; without one every selected image with
      a real source starts loading at once.  Nothing else changes. */
  method LazyLoadInit(images: seq<Image>, hasObserver: bool)
    modifies set img | img in images
    ensures forall k | 0 <= k < |images| ::
              images[k].dataSrc == old(images[k].dataSrc) && images[k].lazy == old(images[k].lazy)
    ensures hasObserver ==> forall k | 0 <= k < |images| ::
              && images[k].observed == (old(images[k].observed) || old(images[k].Selected()))
              && images[k].src == old(images[k].src)
              && images[k].loadHandler == old(images[k].loadHandler)
    ensures !hasObserver ==> forall k | 0 <= k < |images| ::
              && images[k].observed == old(images[k].observed)
              && (old(images[k].Selected() && images[k].HasPendingSource()) ==>
                    images[k].src == old(images[k].dataSrc.value) && images[k].loadHandler)
              && (!old(images[k].Selected() && images[k].HasPendingSource()) ==>
                    images[k].src == old(images[k].src) && images[k].loadHandler == old(images[k].loadHandler))
  {
    for i := 0 to |images|
      invariant forall k | 0 <= k < |images| ::
                  images[k].dataSrc == old(images[k].dataSrc) && images[k].lazy == old(images[k].lazy)
      invariant hasObserver ==> forall k | 0 <= k < |images| ::
                  && images[k].observed == (old(images[k].observed) || (images[k] in images[..i] && old(images[k].Selected())))
                  && images[k].src == old(images[k].src)
                  && images[k].loadHandler == old(images[k].loadHandler)
      invariant !hasObserver ==> forall k | 0 <= k < |images| ::
                  && images[k].observed == old(images[k].observed)
                  && (images[k] in images[..i] && old(images[k].Selected() && images[k].HasPendingSource()) ==>
                        images[k].src == old(images[k].dataSrc.value) && images[k].loadHandler)
                  && (!(images[k] in images[..i] && old(images[k].Selected() && images[k].HasPendingSource())) ==>
                        images[k].src == old(images[k].src) && images[k].loadHandler == old(images[k].loadHandler))
    {
      var img := images[i];
      assert images[..i + 1] == images[..i] + [img];
      if img.Selected() {
        if hasObserver {
          img.Observe();
        } else {
          img.StartLoad();
        }
      }
    }
    assert images[..|images|] == images;
  }
}
