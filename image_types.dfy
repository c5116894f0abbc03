/** The record the content script reports for every image it finds on a page. */
module ImageTypes {

  /**
   * One discovered image: its resolved URL, alt text, natural size and the
   * file name shown to the user. Sizes are unbounded integers here.
   */
  datatype ImageInfo = ImageInfo(src: string, alt: string, width: int, height: int, filename: string)
}
