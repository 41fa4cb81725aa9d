/** The resume record every form edits and every template reads, with the
    sample resume the editor starts from. */
module ResumeTypes {

  datatype PersonalInfo = PersonalInfo(
    name: string,
    title: string,
    phone: string,
    email: string,
    linkedin: string,
    github: string)

  /** One work entry. The Academic template also reuses it for publications. */
  datatype Experience = Experience(
    id: string,
    jobTitle: string,
    company: string,
    location: string,
    startDate: string,
    endDate: string,
    description: string)

  datatype Education = Education(
    id: string,
    degree: string,
    school: string,
    location: string,
    graduationYear: string)

  datatype Project = Project(
    id: string,
    name: string,
    description: string,
    link: string)

  datatype ResumeData = ResumeData(
    personalInfo: PersonalInfo,
    summary: string,
    experience: seq<Experience>,
    education: seq<Education>,
    skills: seq<string>,
    projects: seq<Project>)

  /** The resume shown when the editor opens. */
  const InitialData: ResumeData := ResumeData(
    PersonalInfo(
      "Amelia Vance",
      "Senior Product Designer",
      "+1 (555) 123-4567",
      "amelia.vance@example.com",
      "linkedin.com/in/ameliavance",
      "github.com/ameliavance"),
    "A seasoned product designer with over a decade of experience in user-centered design, specializing in creating intuitive and beautiful interfaces for complex web applications. Proven ability to lead design teams and collaborate effectively with cross-functional stakeholders to deliver products that meet both user needs and business goals.",
    [ Experience(
        "exp1",
        "Senior Product Designer",
        "Innovate Corp",
        "San Francisco, CA",
        "Jun 2018",
        "Present",
        "- Led the redesign of the flagship SaaS platform, resulting in a 20% increase in user engagement and a 15% reduction in support tickets.\n- Mentored a team of 3 junior designers, fostering a culture of collaboration and continuous improvement.\n- Established and maintained a comprehensive design system, ensuring brand consistency across all products."),
      Experience(
        "exp2",
        "UX/UI Designer",
        "Creative Solutions",
        "Austin, TX",
        "Jul 2014",
        "May 2018",
        "- Designed and shipped multiple features for a suite of mobile productivity apps.\n- Conducted user research, including interviews and usability testing, to inform design decisions.\n- Created wireframes, prototypes, and high-fidelity mockups for various projects.") ],
    [ Education(
        "edu1",
        "Bachelor of Fine Arts in Graphic Design",
        "Rhode Island School of Design",
        "Providence, RI",
        "2014") ],
    [ "User-Centered Design",
      "UI/UX Design",
      "Prototyping & Wireframing",
      "Figma & Sketch",
      "Design Systems",
      "User Research",
      "Agile Methodologies",
      "HTML & CSS" ],
    [ Project(
        "proj1",
        "Portfolio Website",
        "Personal portfolio showcasing a curated selection of my design work. Built with React and Framer Motion.",
        "ameliavance.design"),
      Project(
        "proj2",
        "Sidekick Mobile App",
        "A concept for a personal task management app focused on simplicity and mindfulness.",
        "github.com/ameliavance/sidekick") ])
}
