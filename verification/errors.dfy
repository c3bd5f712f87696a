/** The failures the scraping pipeline reports to its caller. */
module Errors {

  datatype Error =
    | NoNextDataFound          // ValueError("No Next.js data found"): no strategy produced parseable JSON
    | ProductExtractionFailed  // ValueError("Product data extraction failed"): no candidate matched the request
    | CandidateTypeError       // TypeError: testing a candidate raised
}
