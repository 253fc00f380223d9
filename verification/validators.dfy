/** The request validators: each returns a verdict whose error message is
    present exactly when the input is refused. Form values that are not strings
    (or image fields that are not lists) are only known by their truthiness. */
module Validators {
  import opened Wrappers
  import opened Text

  /** A submitted form value: a string, or something else that is truthy or not. */
  datatype FormValue = Str(s: string) | Other(truthy: bool) {
    predicate Truthy() {
      match this
      case Str(s) => |s| > 0
      case Other(t) => t
    }
  }

  /** The image field: a list of some length, or something else. */
  datatype ImagesValue = List(count: nat) | NotList(truthy: bool) {
    predicate Truthy() {
      match this
      case List(n) => n > 0
      case NotList(t) => t
    }
  }

  datatype Verdict = Verdict(valid: bool, error: Option<string>)

  function Accept(): (v: Verdict)
    ensures v.valid && v.error.None?
  {
    Verdict(true, None)
  }

  function Refuse(message: string): (v: Verdict)
    ensures !v.valid && v.error == Some(message)
  {
    Verdict(false, Some(message))
  }

  const ListingMissing := "Listing text is required and must be a string"
  const ListingTooShort := "Listing text too short. Please provide a more detailed description (minimum 50 characters)"
  const ListingTooLong := "Listing text too long. Please keep it under 10,000 characters"
  const MinListing: nat := 50
  const MaxListing: nat := 10000

  /** `validate_listing_text`: a non-empty string whose stripped length is at
      least 50 and whose raw length is at most 10000; the checks run in that order. */
  function ValidateListingText(v: FormValue): (r: Verdict)
    ensures r.valid <==> r.error.None?
    ensures r.valid <==> v.Str? && |Strip(v.s)| >= MinListing && |v.s| <= MaxListing
    ensures !v.Truthy() || v.Other? ==> r.error == Some(ListingMissing)
    ensures v.Str? && |v.s| > 0 && |Strip(v.s)| < MinListing ==> r.error == Some(ListingTooShort)
    ensures v.Str? && |Strip(v.s)| >= MinListing && |v.s| > MaxListing ==> r.error == Some(ListingTooLong)
  {
    if !v.Truthy() || !v.Str? then Refuse(ListingMissing)
    else if |Strip(v.s)| < MinListing then Refuse(ListingTooShort)
    else if |v.s| > MaxListing then Refuse(ListingTooLong)
    else Accept()
  }

  /** Whitespace padding never satisfies the minimum: padding a text whose
      content is too short leaves it refused as too short. */
  lemma PaddingDoesNotLengthen(pad: string, s: string, pad2: string)
    requires AllSpace(pad) && AllSpace(pad2)
    requires |Strip(s)| < MinListing
    requires |pad + s + pad2| > 0
    ensures ValidateListingText(Str(pad + s + pad2)).error == Some(ListingTooShort)
  {
    StripPadding(pad, s, pad2);
  }

  /** The maximum counts the padding: long enough content padded past 10000
      characters is refused as too long. */
  lemma PaddingCountsTowardMaximum(pad: string, s: string, pad2: string)
    requires AllSpace(pad) && AllSpace(pad2)
    requires |Strip(s)| >= MinListing
    requires |pad + s + pad2| > MaxListing
    ensures ValidateListingText(Str(pad + s + pad2)).error == Some(ListingTooLong)
  {
    StripPadding(pad, s, pad2);
  }

  const UniversityMissing := "University name is required"
  const UniversityTooShort := "University name too short"

  /** `validate_university`: a non-empty string of at least 2 characters once stripped. */
  function ValidateUniversity(v: FormValue): (r: Verdict)
    ensures r.valid <==> r.error.None?
    ensures r.valid <==> v.Str? && |Strip(v.s)| >= 2
    ensures !v.Truthy() || v.Other? ==> r.error == Some(UniversityMissing)
    ensures v.Str? && |v.s| > 0 && |Strip(v.s)| < 2 ==> r.error == Some(UniversityTooShort)
  {
    if !v.Truthy() || !v.Str? then Refuse(UniversityMissing)
    else if |Strip(v.s)| < 2 then Refuse(UniversityTooShort)
    else Accept()
  }

  const AddressNotString := "Address must be a string"
  const AddressTooLong := "Address too long"
  const MaxAddress: nat := 500

  /** `validate_address`: optional, so anything falsy passes; otherwise a string
      of at most 500 characters. */
  function ValidateAddress(v: FormValue): (r: Verdict)
    ensures r.valid <==> r.error.None?
    ensures r.valid <==> !v.Truthy() || (v.Str? && |v.s| <= MaxAddress)
    ensures v.Truthy() && v.Other? ==> r.error == Some(AddressNotString)
    ensures v.Str? && |v.s| > MaxAddress ==> r.error == Some(AddressTooLong)
  {
    if !v.Truthy() then Accept()
    else if !v.Str? then Refuse(AddressNotString)
    else if |v.s| > MaxAddress then Refuse(AddressTooLong)
    else Accept()
  }

  const ImagesNotList := "Images must be provided as a list"
  const TooManyImages := "Maximum 5 images allowed"
  const MaxImages: nat := 5

  /** `validate_images`: optional, so anything falsy passes; otherwise a list of
      at most five. */
  function ValidateImages(v: ImagesValue): (r: Verdict)
    ensures r.valid <==> r.error.None?
    ensures r.valid <==> !v.Truthy() || (v.List? && v.count <= MaxImages)
    ensures v.Truthy() && v.NotList? ==> r.error == Some(ImagesNotList)
    ensures v.List? && v.count > MaxImages ==> r.error == Some(TooManyImages)
  {
    if !v.Truthy() then Accept()
    else if !v.List? then Refuse(ImagesNotList)
    else if v.count > MaxImages then Refuse(TooManyImages)
    else Accept()
  }
}
